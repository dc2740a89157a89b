/** The append-only user directory of `src/models/User.js`. */
module UserModel {
  import opened Wrappers
  import opened Clock
  import opened Password
  import opened Sequences

  /** A stored account; `password` holds the hash, never the plaintext. */
  datatype User = User(id: int, name: string, email: string, password: string, createdAt: Timestamp)

  /** The password-free view `createUser` and `getAllUsers` hand out. */
  datatype PublicUser = PublicUser(id: int, name: string, email: string, createdAt: Timestamp)

  /** The password-free object built from an account: every field but the password. */
  function Redact(u: User): (r: PublicUser)
    ensures r.id == u.id && r.name == u.name && r.email == u.email && r.createdAt == u.createdAt
  {
    PublicUser(u.id, u.name, u.email, u.createdAt)
  }

  /** Accounts that differ only in their password hash look the same from outside. */
  lemma RedactIgnoresPassword(u: User, hash: string)
    ensures Redact(u.(password := hash)) == Redact(u)
  {
  }

  /** `toLowerCase` on one character (ASCII letters only). */
  function LowerChar(c: char): char
  {
    if 'A' <= c <= 'Z' then (c as int + 32) as char else c
  }

  /** `toLowerCase` on a string, character by character. */
  function Lower(s: string): (r: string)
    ensures |r| == |s|
    ensures forall i | 0 <= i < |s| :: r[i] == LowerChar(s[i]) && !('A' <= r[i] <= 'Z')
  {
    if |s| == 0 then "" else [LowerChar(s[0])] + Lower(s[1..])
  }

  /** Lower-casing twice is lower-casing once, so the case-insensitive match is itself
      insensitive to case. */
  lemma LowerIdempotent(s: string)
    ensures Lower(Lower(s)) == Lower(s)
  {
    var l := Lower(s);
    assert forall i | 0 <= i < |l| :: Lower(l)[i] == l[i];
  }

  /** The directory's email comparison: equal after lower-casing both sides. */
  function SameEmail(a: string, b: string): (r: bool)
    ensures r <==> |a| == |b| && forall i | 0 <= i < |a| :: LowerChar(a[i]) == LowerChar(b[i])
  {
    Lower(a) == Lower(b)
  }

  /** The first position whose email matches `email` case-insensitively, or -1. */
  function IndexOfEmail(us: seq<User>, email: string): (i: int)
    ensures -1 <= i < |us|
    ensures 0 <= i ==> SameEmail(us[i].email, email)
    ensures forall j | 0 <= j < |us| && (i < 0 || j < i) :: !SameEmail(us[j].email, email)
  {
    FirstIndex(us, (u: User) => SameEmail(u.email, email))
  }

  /** The first position whose id is exactly `id`, or -1. */
  function IndexOfId(us: seq<User>, id: int): (i: int)
    ensures -1 <= i < |us|
    ensures 0 <= i ==> us[i].id == id
    ensures forall j | 0 <= j < |us| && (i < 0 || j < i) :: us[j].id != id
  {
    FirstIndex(us, (u: User) => u.id == id)
  }

  /** Ids are positions plus one: 1..n, unique and increasing. */
  predicate SequentialIds(us: seq<User>)
  {
    forall i | 0 <= i < |us| :: us[i].id == i + 1
  }

  /** No two accounts share an email up to case. */
  predicate UniqueEmails(us: seq<User>)
  {
    forall i, j | 0 <= i < j < |us| :: !SameEmail(us[i].email, us[j].email)
  }

  /** With sequential ids, the lookup by id is a direct index. */
  lemma IdLookupIsDirect(us: seq<User>, id: int)
    requires SequentialIds(us)
    ensures IndexOfId(us, id) == if 1 <= id <= |us| then id - 1 else -1
  {
    var i := IndexOfId(us, id);
    if 1 <= id <= |us| {
      assert us[id - 1].id == id;
    }
  }

  /** Appending an account whose email is new keeps emails unique, and the new account is
      then what a lookup of any case variant of its email finds. */
  lemma {:induction false} AppendFreshEmail(us: seq<User>, u: User, email: string)
    requires IndexOfEmail(us, u.email) < 0
    requires SameEmail(email, u.email)
    ensures UniqueEmails(us) ==> UniqueEmails(us + [u])
    ensures IndexOfEmail(us + [u], email) == |us|
  {
    var vs := us + [u];
    assert vs[|us|] == u;
    forall j | 0 <= j < |us|
      ensures !SameEmail(vs[j].email, email) && !SameEmail(vs[j].email, u.email)
    {
      assert vs[j] == us[j];
    }
    if UniqueEmails(us) {
      forall i, j | 0 <= i < j < |vs|
        ensures !SameEmail(vs[i].email, vs[j].email)
      {
        if j < |us| {
          assert vs[i] == us[i] && vs[j] == us[j];
        }
      }
    }
  }

  /** The in-memory user array. */
  class UserStore {
    var users: seq<User>

    ghost predicate Valid()
      reads this
    {
      SequentialIds(users)
    }

    constructor ()
      ensures Valid() && users == []
    {
      users := [];
    }

    /** `createUser`: append one account with id length-plus-one and the hashed password,
        and return its password-free view. Email uniqueness is not checked here. */
    method CreateUser(name: string, email: string, password: string, hasher: Hasher, salt: Salt,
                      now: Timestamp)
      returns (pu: PublicUser)
      requires Valid()
      modifies this
      ensures Valid()
      ensures users == old(users) + [User(|old(users)| + 1, name, email, hasher.hash(password, salt), now)]
      ensures pu == PublicUser(|users|, name, email, now)
    {
      var hashed := hasher.hash(password, salt);
      var user := User(|users| + 1, name, email, hashed, now);
      users := users + [user];
      pu := PublicUser(user.id, user.name, user.email, user.createdAt);
    }

    /** `findUserByEmail`: the first account whose email matches case-insensitively,
        with its password hash. */
    method FindUserByEmail(email: string) returns (r: Option<User>)
      ensures var i := IndexOfEmail(users, email); r == if i < 0 then None else Some(users[i])
    {
      var target := Lower(email);
      var i := 0;
      while i < |users|
        invariant 0 <= i <= |users|
        invariant forall j | 0 <= j < i :: !SameEmail(users[j].email, email)
      {
        if Lower(users[i].email) == target {
          return Some(users[i]);
        }
        i := i + 1;
      }
      r := None;
    }

    /** `findUserById`: the first account with exactly that id, with its password hash. */
    method FindUserById(id: int) returns (r: Option<User>)
      ensures var i := IndexOfId(users, id); r == if i < 0 then None else Some(users[i])
    {
      var i := 0;
      while i < |users|
        invariant 0 <= i <= |users|
        invariant forall j | 0 <= j < i :: users[j].id != id
      {
        if users[i].id == id {
          return Some(users[i]);
        }
        i := i + 1;
      }
      r := None;
    }

    /** `getAllUsers`: every account, in order, without its password. */
    method GetAllUsers() returns (r: seq<PublicUser>)
      ensures |r| == |users|
      ensures forall i | 0 <= i < |r| :: r[i] == Redact(users[i])
    {
      r := [];
      var i := 0;
      while i < |users|
        invariant 0 <= i <= |users|
        invariant |r| == i
        invariant forall j | 0 <= j < i :: r[j] == Redact(users[j])
      {
        var u := users[i];
        r := r + [PublicUser(u.id, u.name, u.email, u.createdAt)];
        i := i + 1;
      }
    }
  }
}
