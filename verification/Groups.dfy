/**
  Group safety: the member list of a group and the group list of a user are two
  hashes updated side by side; what every handler keeps of them.
 */
module Groups {
  import opened Store
  import opened Friendship

  /** Every member of a group has the group in their own list, so an unread count to increment. */
  ghost predicate MembersListed(db: Db) {
    forall g, u :: (g, u) in db.grop ==> (u, g) in db.mygp
  }

  ghost predicate OneOwner(db: Db) {
    forall g, u, v | (g, u) in db.grop && (g, v) in db.grop ::
      db.grop[(g, u)] == Owner && db.grop[(g, v)] == Owner ==> u == v
  }

  ghost predicate GroupInv(db: Db) {
    MembersListed(db) && OneOwner(db)
  }

  /** Members and ranks only shrink, and no list of groups loses a remaining member's group. */
  lemma GroupFrame(db: Db, db': Db)
    requires GroupInv(db)
    requires forall g, u :: (g, u) in db'.grop ==> (g, u) in db.grop && (u, g) in db'.mygp
    requires forall g, u :: (g, u) in db'.grop && db'.grop[(g, u)] == Owner ==> db.HasRank(g, u, Owner)
    ensures GroupInv(db')
  {
  }

  lemma JoinKeeps(db: Db, g: Name, u: Name, r: Rank)
    requires GroupInv(db)
    requires r == Owner ==> !db.IsGroup(g)
    ensures GroupInv(JoinAs(db, g, u, r))
  {}

  lemma {:induction false} JoinAllKeeps(db: Db, g: Name, members: seq<Name>)
    requires GroupInv(db)
    ensures GroupInv(JoinAll(db, g, members))
  {
    if members != [] {
      var db1 := JoinAll(db, g, members[..|members| - 1]);
      JoinAllKeeps(db, g, members[..|members| - 1]);
      JoinKeeps(db1, g, members[|members| - 1], Member);
    }
  }

  lemma CreateGroupKeeps(db: Db, g: Name, owner: Name, members: seq<Name>)
    requires GroupInv(db)
    ensures GroupInv(CreateGroup(db, g, owner, members))
  {
    if !db.IsGroup(g) {
      JoinKeeps(db, g, owner, Owner);
      JoinAllKeeps(JoinGroup(db, g, owner, Owner), g, members);
    }
  }

  /** The handlers of friends and messages, given the group tables they leave alone. */
  lemma SameGroups(db: Db, db': Db)
    requires GroupInv(db) && db'.grop == db.grop && db'.mygp.Keys == db.mygp.Keys
    ensures GroupInv(db')
  {}

  lemma VerifyUserKeepsGroups(db: Db, pass: Pass, me: Name, name: Name, yes: bool)
    requires GroupInv(db) && !Crosses(db, pass, me, name, yes)
    ensures GroupInv(VerifyUser(db, pass, me, name, yes))
  {
    var items := db.Pending(me);
    var i := FirstMatch(items, name);
    if i < |items| {
      assert ActsOn(db, me, name, items[i]);
      if yes && items[i].Invitation? {
        JoinKeeps(db, name, me, Member);
        SameGroups(JoinAs(db, name, me, Member), VerifyUser(db, pass, me, name, yes));
      }
    }
  }

  /** What a verification stores about groups: the member, and the listing unless it was for a friend. */
  lemma VerifyStores(db: Db, pass: Pass, me: Name, name: Name, yes: bool)
    ensures var i, db' := FirstMatch(db.Pending(me), name), VerifyUser(db, pass, me, name, yes);
            var joins := i < |db.Pending(me)| && yes && db.Pending(me)[i].Invitation?;
            && db'.grop == (if joins then db.grop[(name, me) := Member] else db.grop)
            && db'.mygp == (if joins && pass == InvitationPass then db.mygp[(me, name) := 0] else db.mygp)
            && (Crosses(db, pass, me, name, yes) <==> joins && pass == AddFriendPass)
  {
    var i := FirstMatch(db.Pending(me), name);
    if i < |db.Pending(me)| {
      assert ActsOn(db, me, name, db.Pending(me)[i]);
    }
    hide Lrem, FirstMatch;
  }

  /** A friend verification that meets an invitation breaks the agreement exactly when the group was not listed. */
  lemma MembersListedExactly(db: Db, pass: Pass, me: Name, name: Name, yes: bool)
    requires MembersListed(db)
    ensures MembersListed(VerifyUser(db, pass, me, name, yes)) <==>
              !Crosses(db, pass, me, name, yes) || (me, name) in db.mygp
  {
    VerifyStores(db, pass, me, name, yes);
    hide VerifyUser, Crosses, FirstMatch;
    if Crosses(db, pass, me, name, yes) {
      assert (name, me) in VerifyUser(db, pass, me, name, yes).grop;
    }
  }

  lemma VerifyGroupKeeps(db: Db, g: Name, name: Name, yes: bool)
    requires GroupInv(db)
    ensures GroupInv(VerifyGroup(db, g, name, yes))
  {}

  /** A deleted account is a member of nothing; a group it owned is gone. */
  lemma DeleteUserLeavesGroups(db: Db, x: Name)
    requires GroupInv(db)
    ensures GroupInv(DeleteUser(db, x))
    ensures forall g :: (g, x) !in DeleteUser(db, x).grop
    ensures forall g :: db.HasRank(g, x, Owner) ==> !DeleteUser(db, x).IsGroup(g)
  {}

  lemma RemoveMemberKeeps(db: Db, g: Name, u: Name)
    requires GroupInv(db)
    ensures GroupInv(RemoveMember(db, g, u))
  {}

  lemma LeaveGroupKeeps(db: Db, me: Name, g: Name, confirmed: bool)
    requires GroupInv(db)
    ensures GroupInv(LeaveGroup(db, me, g, confirmed))
    ensures confirmed ==> (g, me) !in LeaveGroup(db, me, g, confirmed).grop
    ensures confirmed && db.HasRank(g, me, Owner) ==> !LeaveGroup(db, me, g, confirmed).IsGroup(g)
  {
    if (g, me) in db.grop && confirmed {
      if db.grop[(g, me)] == Owner {
        GroupFrame(db, Dissolve(db, g));
      } else {
        RemoveMemberKeeps(db, g, me);
      }
    }
  }

  // ---------- how one becomes a member ----------

  lemma {:induction false} JoinAllMembers(db: Db, g: Name, members: seq<Name>, u: Name)
    ensures var db' := JoinAll(db, g, members);
            && ((g, u) in db'.grop <==> (g, u) in db.grop || (u in db.users && u in members))
            && ((g, u) in db'.grop ==>
                  db'.grop[(g, u)] == if u in db.users && u in members then Member else db.grop[(g, u)])
  {
    if members != [] {
      var init := members[..|members| - 1];
      JoinAllMembers(db, g, init, u);
      assert members == init + [members[|members| - 1]];
    }
  }

  /** Of those named, the accounts become members; the owner stays one exactly when not named as a member too. */
  lemma CreateGroupMembers(db: Db, g: Name, owner: Name, members: seq<Name>, u: Name)
    requires !db.IsGroup(g)
    ensures var db' := CreateGroup(db, g, owner, members);
            && ((g, u) in db'.grop <==> u in db.users && (u == owner || u in members))
            && (db'.HasRank(g, u, Owner) <==> u == owner && u in db.users && u !in members)
  {
    JoinAllMembers(JoinGroup(db, g, owner, Owner), g, members, u);
    assert (g, u) in db.grop ==> db.IsGroup(g);
    hide JoinAll;
  }

  /** An invitation and its answer. */
  lemma InvitedThenAnswered(db: Db, me: Name, person: Name, g: Name, yes: bool)
    requires db.IsGroup(g) && (me, g) in db.mygp && (me, person) in db.frie && (person, me) in db.frie
    requires (person, g) !in db.mygp && (g, person) !in db.grop
    ensures var db' := VerifyUser(Invite(db, me, person, g), InvitationPass, person, g, yes);
            && ((g, person) in db'.grop <==> yes) && ((person, g) in db'.mygp <==> yes)
            && (yes ==> db'.HasRank(g, person, Member))
            && Invitation(me, g) !in db'.Pending(person)
  {
    var invited := Invite(db, me, person, g);
    assert invited.Pending(person)[0] == Invitation(me, g);
    assert FirstMatch(invited.Pending(person), g) == 0;
    LremRemoves(invited.Pending(person), Invitation(me, g));
    hide Lrem, FirstMatch;
  }

  /** A wish to join and its answer. */
  lemma AskedThenAdmitted(db: Db, me: Name, g: Name, yes: bool)
    requires GroupInv(db) && db.IsGroup(g) && (me, g) !in db.mygp
    ensures var db' := VerifyGroup(AskGroup(db, me, g), g, me, yes);
            && ((g, me) in db'.grop <==> yes) && ((me, g) in db'.mygp <==> yes)
            && (yes ==> db'.HasRank(g, me, Member))
            && me !in db'.Asking(g)
  {
    var asked := AskGroup(db, me, g);
    assert asked.Asking(g)[0] == me;
    LremRemoves(asked.Asking(g), me);
    hide Lrem;
  }

  // ---------- ranks ----------

  predicate Above(a: Rank, b: Rank) {
    a != b && (a == Owner || b == Member)
  }

  /** Comparing the texts of two ranks compares the ranks. */
  lemma CompareLevelIsRankOrder(a: Rank, b: Rank)
    ensures CompareLevel(RankText(a), RankText(b)) <==> Above(a, b)
  {}

  lemma CmdKeeps(db: Db, g: Name, actor: Name, target: Name, use: Use)
    requires GroupInv(db)
    ensures GroupInv(Cmd(db, g, actor, target, use))
  {}

  /** No command of a member touches someone of the same or a higher rank, the owner least of all. */
  lemma CmdRespectsRank(db: Db, g: Name, actor: Name, target: Name, use: Use, u: Name)
    requires (g, actor) in db.grop && (g, u) in db.grop
    requires u != target || !Above(db.grop[(g, actor)], db.grop[(g, u)])
    ensures var db' := Cmd(db, g, actor, target, use);
            (g, u) in db'.grop && db'.grop[(g, u)] == db.grop[(g, u)]
  {}

  /**
    A removal takes effect exactly when the target's rank is below the actor's,
    or the actor is no member: "null" is shorter than every rank.
   */
  lemma RemovalExactly(db: Db, g: Name, actor: Name, target: Name)
    requires (g, target) in db.grop
    ensures (g, target) !in Cmd(db, g, actor, target, Del).grop <==>
              (g, actor) !in db.grop || Above(db.grop[(g, actor)], db.grop[(g, target)])
  {}

  /** Between members only the owner changes a rank, and never an owner's. */
  lemma RankChangeExactly(db: Db, g: Name, actor: Name, target: Name, use: Use)
    requires (g, actor) in db.grop && (g, target) in db.grop && use != Del
    ensures var db' := Cmd(db, g, actor, target, use);
            (g, target) in db'.grop &&
            db'.grop[(g, target)] ==
              if db.grop[(g, actor)] == Owner && db.grop[(g, target)] != Owner
              then (if use == Upl then Admin else Member)
              else db.grop[(g, target)]
  {
    CompareLevelIsRankOrder(db.grop[(g, actor)], db.grop[(g, target)]);
    hide CompareLevel;
  }

  // ---------- group messages ----------

  /** Every unread count that a group message increments exists. */
  lemma GroupMessageFindsCounts(db: Db, g: Name, sender: Name, u: Name)
    requires GroupInv(db) && CountsAt(db, g, sender, u)
    ensures (u, g) in db.mygp
    ensures (g, sender) in db.grop ==> GroupMessage(db, g, sender).mygp[(u, g)] == db.mygp[(u, g)] + 1
  {
  }

  /** Opening a group clears its count and stops the counting; closing it starts the counting again. */
  lemma OpenGroupStaysRead(db: Db, g: Name, me: Name, sender: Name)
    requires GroupInv(db) && (g, me) in db.grop && me != sender
    ensures (me, g) in OpenGroup(db, me, g).mygp && OpenGroup(db, me, g).mygp[(me, g)] == 0
    ensures !CountsAt(OpenGroup(db, me, g), g, sender, me)
    ensures CountsAt(EndGroupChat(OpenGroup(db, me, g), me, g), g, sender, me)
  {}

  lemma GroupMessageKeeps(db: Db, g: Name, sender: Name)
    requires GroupInv(db)
    ensures GroupInv(GroupMessage(db, g, sender))
  {}

  lemma OpenGroupKeeps(db: Db, me: Name, g: Name)
    requires GroupInv(db)
    ensures GroupInv(OpenGroup(db, me, g)) && GroupInv(GroupHistory(db, me, g))
  {}

  // ---------- the other inclusion ----------

  /** Every group in a user's list has the user as a member. */
  ghost predicate Listed(db: Db) {
    forall u, g :: (u, g) in db.mygp ==> (g, u) in db.grop
  }

  /** The account owns a group that has another member. */
  ghost predicate OwnsWithOthers(db: Db, x: Name) {
    exists g, u :: db.HasRank(g, x, Owner) && (g, u) in db.grop && u != x
  }

  /** Deleting an account leaves the group in the lists of others exactly when it owned one with others in it. */
  lemma DeletionListedExactly(db: Db, x: Name)
    requires GroupInv(db) && Listed(db)
    ensures Listed(DeleteUser(db, x)) <==> !OwnsWithOthers(db, x)
  {
    var db' := DeleteUser(db, x);
    if g, u :| db.HasRank(g, x, Owner) && (g, u) in db.grop && u != x {
      assert (u, g) in db'.mygp && (g, u) !in db'.grop;
    } else {
      forall u, g | (u, g) in db'.mygp ensures (g, u) in db'.grop {
        assert (u, g) in db.mygp && u != x;
        assert (g, u) in db.grop && !db.HasRank(g, x, Owner);
      }
    }
  }

  /** Asking for the history of a group lists it, member or not. */
  lemma HistoryListedExactly(db: Db, me: Name, g: Name)
    requires Listed(db)
    ensures Listed(GroupHistory(db, me, g)) <==> (g, me) in db.grop
  {
    assert (me, g) in GroupHistory(db, me, g).mygp;
  }

  lemma {:induction false} JoinAllListed(db: Db, g: Name, members: seq<Name>)
    requires Listed(db)
    ensures Listed(JoinAll(db, g, members))
  {
    if members != [] {
      JoinAllListed(db, g, members[..|members| - 1]);
      hide JoinAll;
    }
  }

  lemma VerifyListed(db: Db, pass: Pass, me: Name, name: Name, yes: bool)
    requires Listed(db)
    ensures Listed(VerifyUser(db, pass, me, name, yes))
  {
    VerifyStores(db, pass, me, name, yes);
    hide VerifyUser, Crosses, FirstMatch;
  }

  lemma AdmitListed(db: Db, g: Name, name: Name, yes: bool)
    requires Listed(db)
    ensures Listed(VerifyGroup(db, g, name, yes))
  {}

  lemma CreateListed(db: Db, g: Name, owner: Name, members: seq<Name>)
    requires Listed(db)
    ensures Listed(CreateGroup(db, g, owner, members))
  {
    JoinAllListed(JoinGroup(db, g, owner, Owner), g, members);
    hide JoinAll;
  }

  lemma CountListed(db: Db, g: Name, sender: Name)
    requires Listed(db)
    ensures Listed(GroupMessage(db, g, sender))
  {}

  lemma OpenListed(db: Db, me: Name, g: Name)
    requires Listed(db)
    ensures Listed(OpenGroup(db, me, g))
  {}

  lemma LeaveListed(db: Db, me: Name, g: Name, confirmed: bool)
    requires GroupInv(db) && Listed(db)
    ensures Listed(LeaveGroup(db, me, g, confirmed))
  {
    hide OnlyWrites, OneOwner;
  }

  lemma CmdListed(db: Db, g: Name, actor: Name, target: Name, use: Use)
    requires Listed(db)
    ensures Listed(Cmd(db, g, actor, target, use))
  {
    hide CompareLevel;
  }
}
