/**
  The offline mailbox: the unread count in `frie:R` and the numbered fields of
  `offl:R` represent one first-in-first-out queue per sender.
 */
module Mailbox {
  import opened Decimal
  import opened Store
  import opened Friendship

  /** What the two hashes stand for: the unread messages of each friend, oldest first. */
  type Mail = map<(Name, Name), seq<Msg>>

  /** No lookup of an unread message misses. */
  ghost predicate AllPresent(db: Db) {
    forall r, a :: (r, a) in db.frie ==> MailPresent(db, r, a)
  }

  ghost function AbsMail(db: Db): Mail
    requires AllPresent(db)
  {
    map p | p in db.frie :: Queue(db, p.0, p.1)
  }

  /** No name is another one followed by a number without leading zero. */
  ghost predicate Apart(names: set<Name>) {
    forall a <- names, b <- names :: a != b ==> !Extends(a, b)
  }

  /** All friends have names of this set. */
  ghost predicate Within(db: Db, names: set<Name>) {
    forall r, a :: (r, a) in db.frie ==> r in names && a in names
  }

  ghost predicate MailInv(db: Db, names: set<Name>) {
    AllPresent(db) && Within(db, names) && Apart(names)
  }

  lemma FieldsDiffer(names: set<Name>, a: Name, i: nat, b: Name, j: nat)
    requires Apart(names) && a in names && b in names
    ensures Field(a, i) == Field(b, j) <==> a == b && i == j
  {
    if a == b {
      if Field(a, i) == Field(b, j) {
        FieldInjectiveInIndex(a, i, j);
      }
    } else {
      FieldsApart(a, i, b, j);
    }
  }

  /** A queue depends on its count and its own fields only. */
  lemma QueueFrame(db: Db, db': Db, r: Name, a: Name)
    requires MailPresent(db, r, a) && db'.Count(r, a) == db.Count(r, a)
    requires forall i: nat :: i < db.Count(r, a) ==>
               (r, Field(a, i)) in db'.offl && db'.offl[(r, Field(a, i))] == db.offl[(r, Field(a, i))]
    ensures MailPresent(db', r, a) && Queue(db', r, a) == Queue(db, r, a)
  {}

  /** The abstract mailbox, queue by queue. */
  lemma MailIs(db': Db, names: set<Name>, mail: Mail)
    requires Within(db', names) && Apart(names)
    requires forall p :: p in db'.frie <==> p in mail
    requires forall p :: p in mail ==> MailPresent(db', p.0, p.1) && Queue(db', p.0, p.1) == mail[p]
    ensures MailInv(db', names) && AbsMail(db') == mail
  {}

  // ---------- storing ----------

  /** The stored message goes to the end of the sender's queue. */
  lemma StoreAppends(db: Db, r: Name, a: Name, m: Msg)
    requires MailPresent(db, r, a)
    ensures MailPresent(StoreMessage(db, r, a, m), r, a)
    ensures Queue(StoreMessage(db, r, a, m), r, a) == Queue(db, r, a) + [m]
  {
    var db' := StoreMessage(db, r, a, m);
    forall i: nat | i < db.Count(r, a)
      ensures (r, Field(a, i)) in db'.offl && db'.offl[(r, Field(a, i))] == db.offl[(r, Field(a, i))]
    {
      if Field(a, i) == Field(a, db.Count(r, a)) {
        FieldInjectiveInIndex(a, i, db.Count(r, a));
      }
    }
    hide Field;
  }

  /** It leaves the queue of a sender whose name cannot be confused. */
  lemma StoreSpares(db: Db, r: Name, a: Name, m: Msg, r2: Name, b: Name)
    requires MailPresent(db, r2, b) && (r2, b) != (r, a)
    requires r2 == r ==> !Extends(a, b) && !Extends(b, a)
    ensures MailPresent(StoreMessage(db, r, a, m), r2, b)
    ensures Queue(StoreMessage(db, r, a, m), r2, b) == Queue(db, r2, b)
  {
    var db' := StoreMessage(db, r, a, m);
    forall i: nat | i < db.Count(r2, b)
      ensures (r2, Field(b, i)) in db'.offl && db'.offl[(r2, Field(b, i))] == db.offl[(r2, Field(b, i))]
    {
      if r2 == r {
        FieldsApart(a, db.Count(r, a), b, i);
      }
    }
    hide Field, Extends;
    QueueFrame(db, db', r2, b);
  }

  function Unread(mail: Mail, r: Name, a: Name): seq<Msg> {
    if (r, a) in mail then mail[(r, a)] else []
  }

  lemma StoreRefines(db: Db, names: set<Name>, r: Name, a: Name, m: Msg)
    requires MailInv(db, names) && r in names && a in names
    ensures MailInv(StoreMessage(db, r, a, m), names)
    ensures AbsMail(StoreMessage(db, r, a, m)) == AbsMail(db)[(r, a) := Unread(AbsMail(db), r, a) + [m]]
  {
    var db' := StoreMessage(db, r, a, m);
    StoreAppends(db, r, a, m);
    forall p | p in db.frie && p != (r, a)
      ensures MailPresent(db', p.0, p.1) && Queue(db', p.0, p.1) == Queue(db, p.0, p.1)
    {
      StoreSpares(db, r, a, m, p.0, p.1);
    }
    hide MailPresent, Queue, Apart, Field;
    MailIs(db', names, AbsMail(db)[(r, a) := Unread(AbsMail(db), r, a) + [m]]);
  }

  // ---------- reading and forgetting ----------

  lemma WithoutMailSpares(offl: map<(Name, string), Msg>, r: Name, a: Name, count: nat, r2: Name, b: Name, i: nat)
    requires r2 == r ==> a != b && !Extends(a, b) && !Extends(b, a)
    ensures var rest := WithoutMail(offl, r, a, count);
            ((r2, Field(b, i)) in rest <==> (r2, Field(b, i)) in offl) &&
            ((r2, Field(b, i)) in offl ==> rest[(r2, Field(b, i))] == offl[(r2, Field(b, i))])
  {
    if r2 == r && MailField(Field(b, i), a, count) {
      var j: nat :| j < count && Field(b, i) == Field(a, j);
      FieldsApart(a, j, b, i);
    }
  }

  /** Dropping the fields of one queue leaves every other queue. */
  lemma DropSpares(db: Db, db': Db, names: set<Name>, r: Name, a: Name, count: nat, r2: Name, b: Name)
    requires Apart(names) && a in names && b in names
    requires MailPresent(db, r2, b) && (r2, b) != (r, a)
    requires db'.offl == WithoutMail(db.offl, r, a, count) && db'.Count(r2, b) == db.Count(r2, b)
    ensures MailPresent(db', r2, b) && Queue(db', r2, b) == Queue(db, r2, b)
  {
    forall i: nat | i < db.Count(r2, b)
      ensures (r2, Field(b, i)) in db'.offl && db'.offl[(r2, Field(b, i))] == db.offl[(r2, Field(b, i))]
    {
      WithoutMailSpares(db.offl, r, a, count, r2, b, i);
    }
    hide Field, WithoutMail, Apart;
    QueueFrame(db, db', r2, b);
  }

  /** Opening a chat empties that queue and touches no other. */
  lemma OpenChatRefines(db: Db, names: set<Name>, me: Name, other: Name)
    requires MailInv(db, names) && (me, other) in db.frie
    ensures MailInv(OpenChat(db, me, other), names)
    ensures AbsMail(OpenChat(db, me, other)) == AbsMail(db)[(me, other) := []]
  {
    var db' := OpenChat(db, me, other);
    forall p | p in db.frie && p != (me, other)
      ensures MailPresent(db', p.0, p.1) && Queue(db', p.0, p.1) == Queue(db, p.0, p.1)
    {
      DropSpares(db, db', names, me, other, db.Count(me, other), p.0, p.1);
    }
    assert MailPresent(db', me, other) && Queue(db', me, other) == [];
    hide MailPresent, Queue, Apart, WithoutMail;
    MailIs(db', names, AbsMail(db)[(me, other) := []]);
  }

  lemma DelFriendRefines(db: Db, names: set<Name>, me: Name, other: Name)
    requires MailInv(db, names) && (me, other) in db.frie && (other, me) in db.frie
    ensures MailInv(DelFriend(db, me, other), names)
    ensures AbsMail(DelFriend(db, me, other)) == AbsMail(db) - {(me, other), (other, me)}
  {
    var db' := DelFriend(db, me, other);
    var db1 := db.(offl := WithoutMail(db.offl, me, other, db.Count(me, other)));
    forall p | p in db'.frie
      ensures MailPresent(db', p.0, p.1) && Queue(db', p.0, p.1) == Queue(db, p.0, p.1)
    {
      DropSpares(db, db1, names, me, other, db.Count(me, other), p.0, p.1);
      DropSpares(db1, db', names, other, me, db.Count(other, me), p.0, p.1);
    }
    hide MailPresent, Queue, Field, Apart, WithoutMail;
  }

  lemma QueueSpared(db: Db, x: Name, r: Name, a: Name)
    requires r != x && a != x && (r, a) in db.frie && MailPresent(db, r, a)
    ensures (r, a) in DeleteUser(db, x).frie && MailPresent(DeleteUser(db, x), r, a)
    ensures Queue(DeleteUser(db, x), r, a) == Queue(db, r, a)
  {
    QueueFrame(db, DeleteUser(db, x), r, a);
    hide MailPresent, Queue, Field;
  }

  lemma DeletedElsewhere(db: Db, x: Name, r: Name, a: Name)
    requires Symmetric(db) && (r, a) in DeleteUser(db, x).frie
    ensures r != x && a != x && (r, a) in db.frie
  {}

  lemma DeleteUserRefines(db: Db, names: set<Name>, x: Name)
    requires MailInv(db, names) && Symmetric(db)
    ensures MailInv(DeleteUser(db, x), names)
    ensures AbsMail(DeleteUser(db, x)) == map p | p in AbsMail(db) && p.0 != x && p.1 != x :: AbsMail(db)[p]
  {
    hide MailPresent, Queue, Field, Apart;
    forall p | p in DeleteUser(db, x).frie
      ensures p.0 != x && p.1 != x && p in db.frie
      ensures MailPresent(DeleteUser(db, x), p.0, p.1) && Queue(DeleteUser(db, x), p.0, p.1) == Queue(db, p.0, p.1)
    {
      DeletedElsewhere(db, x, p.0, p.1);
      QueueSpared(db, x, p.0, p.1);
    }
  }

  /** New friends start with empty queues. */
  lemma BefriendRefines(db: Db, db': Db, names: set<Name>, a: Name, b: Name)
    requires MailInv(db, names) && a in names && b in names
    requires db'.offl == db.offl && db'.frie == db.frie[(a, b) := 0][(b, a) := 0]
    ensures MailInv(db', names)
    ensures AbsMail(db') == AbsMail(db)[(a, b) := []][(b, a) := []]
  {
    forall p | p in db.frie && p != (a, b) && p != (b, a)
      ensures MailPresent(db', p.0, p.1) && Queue(db', p.0, p.1) == Queue(db, p.0, p.1)
    {
      QueueFrame(db, db', p.0, p.1);
    }
    assert MailPresent(db', a, b) && Queue(db', a, b) == [] && MailPresent(db', b, a) && Queue(db', b, a) == [];
    hide MailPresent, Queue, Apart;
    MailIs(db', names, AbsMail(db)[(a, b) := []][(b, a) := []]);
  }

  lemma MailFrame(db: Db, db': Db, names: set<Name>)
    requires MailInv(db, names) && db'.offl == db.offl && db'.frie == db.frie
    ensures MailInv(db', names) && AbsMail(db') == AbsMail(db)
  {}
}
