/**
  The unread counts of groups over whole runs: what the number next to a group in a
  user's list stands for.
 */
module GroupCounts {
  import opened Store
  import opened Groups
  import opened ChatRuns

  /** The request sets the user's count of the group to zero: joining, opening, or asking for the history. */
  ghost predicate Resets(db: Db, q: Request, u: Name, g: Name) {
    match q
    case CreatesGroup(group, who, members) =>
      group == g && !db.IsGroup(g) && u in db.users && (u == who || u in members)
    case Verifies(pass, who, name, yes) =>
      var i := FirstMatch(db.Pending(u), g);
      who == u && name == g && yes && pass == InvitationPass && i < |db.Pending(u)| && db.Pending(u)[i].Invitation?
    case VerifiesGroup(group, name, yes) => group == g && name == u && yes && u in db.Asking(g)
    case OpensGroup(who, group) => who == u && group == g && (u, g) in db.mygp
    case SeesHistory(who, group) => who == u && group == g
    case _ => false
  }

  /** A message of another member, while the user is a member without the group open. */
  ghost predicate Misses(db: Db, q: Request, u: Name, g: Name) {
    && q.SendsGroup? && q.group == g && (g, q.who) in db.grop
    && (g, u) in db.grop && u != q.who && (g, u) !in db.groupChatting
  }

  lemma JoinCount(db: Db, g: Name, v: Name, r: Rank, h: Name, u: Name)
    ensures var m := JoinGroup(db, g, v, r).mygp;
            if h == g && u == v && v in db.users then (u, h) in m && m[(u, h)] == 0
            else ((u, h) in m <==> (u, h) in db.mygp) && ((u, h) in m ==> m[(u, h)] == db.mygp[(u, h)])
  {}

  lemma {:induction false} JoinAllCount(db: Db, g: Name, members: seq<Name>, h: Name, u: Name)
    ensures var m := JoinAll(db, g, members).mygp;
            if h == g && u in db.users && u in members then (u, h) in m && m[(u, h)] == 0
            else ((u, h) in m <==> (u, h) in db.mygp) && ((u, h) in m ==> m[(u, h)] == db.mygp[(u, h)])
  {
    if members != [] {
      var init, last := members[..|members| - 1], members[|members| - 1];
      assert members == init + [last];
      var db1 := JoinAll(db, g, init);
      assert JoinAll(db, g, members) == JoinGroup(db1, g, last, Member) && db1.users == db.users;
      hide JoinAll, JoinGroup;
      JoinAllCount(db, g, init, h, u);
      JoinCount(db1, g, last, Member, h, u);
    }
  }

  /** The count is reset, or grows by a missed message, or stays. */
  ghost predicate Counted(db: Db, q: Request, u: Name, g: Name) {
    var m := Handle(db, q).mygp;
    (u, g) in m ==>
      if Resets(db, q, u, g) then m[(u, g)] == 0
      else (u, g) in db.mygp && m[(u, g)] == db.mygp[(u, g)] + if Misses(db, q, u, g) then 1 else 0
  }

  lemma CreateCount(db: Db, q: Request, u: Name, g: Name)
    requires q.CreatesGroup?
    ensures Counted(db, q, u, g)
  {
    if !db.IsGroup(q.group) {
      var db1 := JoinGroup(db, q.group, q.who, Owner);
      JoinCount(db, q.group, q.who, Owner, g, u);
      assert db1.users == db.users;
      JoinAllCount(db1, q.group, q.members, g, u);
      hide JoinAll, JoinGroup;
    }
  }

  /** Whoever leaves or goes takes counts along and changes none. */
  lemma OnlyTakesLists(db: Db, who: Name, g: Name, confirmed: bool, target: Name, use: Use)
    ensures forall p <- DeleteUser(db, who).mygp :: p in db.mygp && DeleteUser(db, who).mygp[p] == db.mygp[p]
    ensures var m := LeaveGroup(db, who, g, confirmed).mygp; forall p <- m :: p in db.mygp && m[p] == db.mygp[p]
    ensures var m := Cmd(db, g, who, target, use).mygp; forall p <- m :: p in db.mygp && m[p] == db.mygp[p]
  {
    hide CompareLevel, Level, GroupsWithout, FriendsWithout;
  }

  /** Requests that can only take a group out of a list. */
  lemma LeavingCount(db: Db, q: Request, u: Name, g: Name)
    requires q.Leaves? || q.LeavesGroup? || q.Commands?
    ensures Counted(db, q, u, g)
  {
    hide DeleteUser, LeaveGroup, Cmd;
    match q
    case Leaves(who) => OnlyTakesLists(db, who, g, true, who, Del);
    case LeavesGroup(who, group, confirmed) => OnlyTakesLists(db, who, group, confirmed, who, Del);
    case Commands(group, who, target, use) => OnlyTakesLists(db, who, group, true, target, use);
  }

  lemma VerifyCount(db: Db, q: Request, u: Name, g: Name)
    requires q.Verifies? || q.VerifiesGroup?
    ensures Counted(db, q, u, g)
  {
    if q.Verifies? {
      VerifyStores(db, q.pass, q.who, q.name, q.yes);
      hide VerifyUser, FirstMatch;
    } else {
      hide Lrem;
    }
  }

  lemma CountStep(db: Db, q: Request, u: Name, g: Name)
    ensures Counted(db, q, u, g)
  {
    if !OfGroups(q) {
      GroupsAside(db, q);
      hide Handle;
    } else if q.CreatesGroup? {
      CreateCount(db, q, u, g);
      hide Counted;
    } else if q.Verifies? || q.VerifiesGroup? {
      VerifyCount(db, q, u, g);
      hide Counted;
    } else if q.Leaves? || q.LeavesGroup? || q.Commands? {
      LeavingCount(db, q, u, g);
      hide Counted;
    }
  }

  /** Some request of the run resets the count. */
  ghost predicate ResetIn(db: Db, qs: seq<Request>, u: Name, g: Name)
    decreases qs
  {
    qs != [] && (Resets(db, qs[0], u, g) || ResetIn(Handle(db, qs[0]), qs[1..], u, g))
  }

  /** How many messages were missed with no reset after them. */
  ghost function MissedSince(db: Db, qs: seq<Request>, u: Name, g: Name): nat
    decreases qs
  {
    if qs == [] then 0
    else
      var later := MissedSince(Handle(db, qs[0]), qs[1..], u, g);
      if Misses(db, qs[0], u, g) && !ResetIn(Handle(db, qs[0]), qs[1..], u, g) then later + 1 else later
  }

  lemma NotBoth(db: Db, q: Request, u: Name, g: Name)
    ensures !(Resets(db, q, u, g) && Misses(db, q, u, g))
  {}

  /**
    Over every run, without any condition on names or requests: a count in a user's
    list is the number of messages that others sent to the group since the user last
    joined it, opened it or asked for its history, while the user was a member and
    did not have it open.
   */
  lemma {:induction false} CountIsMissedSince(db: Db, qs: seq<Request>, u: Name, g: Name)
    requires (u, g) in Run(db, qs).mygp
    ensures !ResetIn(db, qs, u, g) ==> (u, g) in db.mygp
    ensures Run(db, qs).mygp[(u, g)] ==
              MissedSince(db, qs, u, g) + if ResetIn(db, qs, u, g) then 0 else db.mygp[(u, g)]
    decreases qs
  {
    if qs != [] {
      var db1 := Handle(db, qs[0]);
      CountIsMissedSince(db1, qs[1..], u, g);
      if (u, g) in db1.mygp {
        CountStep(db, qs[0], u, g);
      }
      hide Handle, Resets, Misses;
      NotBoth(db, qs[0], u, g);
    }
  }

  /** From an empty server every count has been reset, so it is exactly the number missed since. */
  lemma CountFromEmpty(qs: seq<Request>, u: Name, g: Name)
    requires (u, g) in Run(EMPTY_DB, qs).mygp
    ensures Run(EMPTY_DB, qs).mygp[(u, g)] == MissedSince(EMPTY_DB, qs, u, g)
  {
    CountIsMissedSince(EMPTY_DB, qs, u, g);
    hide Run, MissedSince, ResetIn;
  }

  lemma OpenStaysOpen(db: Db, q: Request, u: Name, g: Name)
    requires (g, u) in db.groupChatting && q != EndsGroupChat(u, g)
    ensures (g, u) in Handle(db, q).groupChatting
  {
    Frames(db, q);
    hide Register, Touch, DeleteUser, AskFriend, VerifyUser, VerifyGroup, DelFriend, Message, OpenChat, EndChat, Black;
    hide Unblack, CreateGroup, AskGroup, Invite, LeaveGroup, Cmd, GroupMessage, GroupHistory;
  }

  /** Over every run in which a user with the group open does not close it, nothing is missed. */
  lemma {:induction false} OpenMissesNothing(db: Db, qs: seq<Request>, u: Name, g: Name)
    requires (g, u) in db.groupChatting && EndsGroupChat(u, g) !in qs
    ensures MissedSince(db, qs, u, g) == 0
    decreases qs
  {
    if qs != [] {
      OpenStaysOpen(db, qs[0], u, g);
      hide Handle;
      OpenMissesNothing(Handle(db, qs[0]), qs[1..], u, g);
    }
  }
}
