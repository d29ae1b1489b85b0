/**
  The field names of an offline mailbox: an account name followed by a decimal
  index (`account + std::to_string(count)`, server/redisCmd.cc:271).
 */
module Decimal {

  predicate IsDigit(c: char) {
    '0' <= c <= '9'
  }

  function Digit(d: nat): (c: char)
    requires d < 10
    ensures IsDigit(c)
  {
    '0' + d as char
  }

  function Value(c: char): (d: nat)
    requires IsDigit(c)
    ensures d < 10
  {
    (c - '0') as nat
  }

  /** `std::to_string` of a count. */
  function ToString(n: nat): (s: string) {
    if n < 10 then [Digit(n)] else ToString(n / 10) + [Digit(n % 10)]
  }

  ghost predicate AllDigits(s: string) {
    forall c <- s :: IsDigit(c)
  }

  /** `std::stoi` of a digit string. */
  function Stoi(s: string): nat
    requires AllDigits(s)
  {
    if s == [] then 0 else Stoi(s[..|s| - 1]) * 10 + Value(s[|s| - 1])
  }

  /** A digit string without a superfluous leading zero. */
  ghost predicate Canonical(s: string) {
    s != [] && AllDigits(s) && (s[0] == '0' ==> |s| == 1)
  }

  lemma {:induction false} ToStringIsCanonical(n: nat)
    ensures Canonical(ToString(n)) && Stoi(ToString(n)) == n
    ensures ToString(n)[0] == '0' <==> n == 0
  {
    if n >= 10 {
      ToStringIsCanonical(n / 10);
      assert ToString(n)[..|ToString(n)| - 1] == ToString(n / 10);
    }
  }

  lemma {:induction false} CanonicalIsToString(s: string)
    requires Canonical(s)
    ensures ToString(Stoi(s)) == s
  {
    var last := s[|s| - 1];
    assert Digit(Value(last)) == last;
    if |s| == 1 {
      assert Stoi(s[..0]) == 0;
      assert s == [last];
    } else {
      var init := s[..|s| - 1];
      assert init[0] == s[0];
      CanonicalIsToString(init);
      ToStringIsCanonical(Stoi(init));
      assert Stoi(init) > 0;
      assert s == init + [last];
    }
  }

  /** The field under which message number `i` of `sender` is kept. */
  function Field(sender: string, i: nat): string {
    sender + ToString(i)
  }

  /** One name is the other followed by a number that does not start with zero. */
  ghost predicate Extends(short: string, long: string) {
    && |short| < |long| && short <= long
    && AllDigits(long[|short|..]) && long[|short|] != '0'
  }

  lemma FieldInjectiveInIndex(sender: string, i: nat, j: nat)
    requires Field(sender, i) == Field(sender, j)
    ensures i == j
  {
    assert Field(sender, i)[|sender|..] == ToString(i);
    assert Field(sender, j)[|sender|..] == ToString(j);
    ToStringIsCanonical(i);
    ToStringIsCanonical(j);
  }

  lemma SameLengthSameName(a: string, i: nat, b: string, j: nat)
    requires Field(a, i) == Field(b, j) && |a| == |b|
    ensures a == b
  {
    assert a == Field(a, i)[..|a|] == Field(b, j)[..|b|] == b;
  }

  lemma CollisionExtends(a: string, i: nat, b: string, j: nat)
    requires Field(a, i) == Field(b, j) && |a| < |b|
    ensures Extends(a, b)
  {
    var s, t, d := ToString(i), ToString(j), b[|a|..];
    ToStringIsCanonical(i);
    ToStringIsCanonical(j);
    assert a == (a + s)[..|a|] == (b + t)[..|a|] == b[..|a|];
    assert s == (a + s)[|a|..] == (b + t)[|a|..] == d + t;
    assert d == s[..|d|];
    assert forall c <- d :: c in s;
  }

  lemma ExtensionCollides(a: string, b: string)
    requires Extends(a, b)
    ensures exists i :: Field(a, i) == Field(b, 0)
  {
    var d := b[|a|..];
    var s := d + "0";
    assert Canonical(s);
    CanonicalIsToString(s);
    assert b == a + d && ToString(0) == "0";
    assert Field(a, Stoi(s)) == a + (d + "0") == (a + d) + "0" == Field(b, 0);
  }

  /**
    The mailboxes of two different senders can share a field exactly when one
    name is the other followed by a number without leading zero.
   */
  lemma FieldsCollideExactly(a: string, b: string)
    requires a != b
    ensures (exists i, j :: Field(a, i) == Field(b, j)) <==> Extends(a, b) || Extends(b, a)
  {
    if i, j :| Field(a, i) == Field(b, j) {
      if |a| < |b| {
        CollisionExtends(a, i, b, j);
      } else if |b| < |a| {
        CollisionExtends(b, j, a, i);
      } else {
        SameLengthSameName(a, i, b, j);
      }
    }
    if Extends(a, b) {
      ExtensionCollides(a, b);
    }
    if Extends(b, a) {
      ExtensionCollides(b, a);
    }
  }

  /** Names that no number can confuse keep apart all their fields. */
  lemma FieldsApart(a: string, i: nat, b: string, j: nat)
    requires !Extends(a, b) && !Extends(b, a)
    ensures Field(a, i) == Field(b, j) <==> a == b && i == j
  {
    if Field(a, i) == Field(b, j) {
      if a == b {
        FieldInjectiveInIndex(a, i, j);
      } else {
        FieldsCollideExactly(a, b);
      }
    }
  }
}
