/** The `users` collection and its adapter (src/models/users.model.js): a
    table of user documents in insertion order, lookups by exact field
    equality that return the first match, and a creation that stores the
    password's hash and hands back the record without it. A failing
    Firestore call is a `fault` argument: the adapter rethrows its error
    unchanged and writes nothing. */
module UsersModel {
  import opened Wrappers
  import opened Crypto

  /** A stored user document together with its document id. `password` holds
      the bcrypt hash. */
  datatype UserRecord = UserRecord(id: string, username: string, email: string, password: string,
                                   createdAt: string, updatedAt: string)

  /** A user as the service hands it out: the record with `password` removed. */
  datatype PublicUser = PublicUser(id: string, username: string, email: string,
                                   createdAt: string, updatedAt: string)

  /** The fields `create` receives. */
  datatype NewUser = NewUser(username: string, email: string, password: string)

  /** The two fields the adapter queries on. */
  datatype Key = Username | Email

  function KeyOf(u: UserRecord, key: Key): string
  {
    match key
    case Username => u.username
    case Email => u.email
  }

  /** `const { password, ...rest } = user`. */
  function WithoutPassword(u: UserRecord): PublicUser
  {
    PublicUser(u.id, u.username, u.email, u.createdAt, u.updatedAt)
  }

  /** `r` is what a `where(key, "==", value)` query's first document gives:
      nothing iff no record has that value, otherwise the earliest record
      that has it. */
  ghost predicate IsFirstMatch(users: seq<UserRecord>, key: Key, value: string, r: Option<UserRecord>)
  {
    match r
    case None => forall i | 0 <= i < |users| :: KeyOf(users[i], key) != value
    case Some(u) =>
      exists i | 0 <= i < |users| ::
        users[i] == u && KeyOf(u, key) == value && forall j | 0 <= j < i :: KeyOf(users[j], key) != value
  }

  /** Index of the first record whose `key` is `value`, or `|users|` if none. */
  function FirstIndex(users: seq<UserRecord>, key: Key, value: string): (i: nat)
    ensures i <= |users|
    ensures forall j | 0 <= j < i :: KeyOf(users[j], key) != value
    ensures i < |users| ==> KeyOf(users[i], key) == value
  {
    if users == [] then 0
    else if KeyOf(users[0], key) == value then 0
    else 1 + FirstIndex(users[1..], key, value)
  }

  function FirstMatch(users: seq<UserRecord>, key: Key, value: string): (r: Option<UserRecord>)
    ensures IsFirstMatch(users, key, value, r)
  {
    var i := FirstIndex(users, key, value);
    if i < |users| then Some(users[i]) else None
  }

  /** The record `create` stores. */
  function NewRecord(data: NewUser, hasher: Hasher, salt: nat, id: string, stamp: string): UserRecord
  {
    UserRecord(id, data.username, data.email, hasher.hash(data.password, salt), stamp, stamp)
  }

  /** Under the hasher's assumptions the stored password is never the
      plaintext, and it is accepted exactly for the passwords with the same
      bcrypt key as the one it was made from, the original among them. */
  lemma NewRecordStoresHash(data: NewUser, hasher: Hasher, salt: nat, id: string, stamp: string, attempt: string)
    requires HasherAxioms(hasher)
    ensures NewRecord(data, hasher, salt, id, stamp).password != data.password
    ensures VerifyPassword(hasher, attempt, NewRecord(data, hasher, salt, id, stamp).password) <==>
      BcryptKey(attempt) == BcryptKey(data.password)
    ensures VerifyPassword(hasher, data.password, NewRecord(data, hasher, salt, id, stamp).password)
  {
  }

  /** `register` sets no upper bound on the password, and bcrypt reads only
      its first 72 UTF-8 bytes: once those are filled, any text appended to
      the password is accepted against the stored hash. */
  lemma LongPasswordAcceptsAnySuffix(data: NewUser, hasher: Hasher, salt: nat, id: string, stamp: string,
                                     extra: string)
    requires HasherAxioms(hasher)
    requires |Utf8Bytes(data.password)| >= KeyBytes
    ensures VerifyPassword(hasher, data.password + extra, NewRecord(data, hasher, salt, id, stamp).password)
  {
    LongPasswordKey(data.password, extra);
  }

  /** `verifyPassword`: exactly the hasher's compare, so against a hash of
      `p` it accepts exactly the passwords with `p`'s bcrypt key. */
  function VerifyPassword(hasher: Hasher, plain: string, hashed: string): (ok: bool)
    ensures HasherAxioms(hasher) ==>
      forall p, salt | hashed == hasher.hash(p, salt) :: ok <==> BcryptKey(plain) == BcryptKey(p)
  {
    hasher.compare(plain, hashed)
  }

  /** The `users` collection. */
  class UserStore {
    var users: seq<UserRecord>

    constructor (users: seq<UserRecord>)
      ensures this.users == users
    {
      this.users := users;
    }

    /** `findByUsername`: the first user with exactly this username, with its
        id, or nothing; a store error is rethrown as it came. */
    method FindByUsername(username: string, fault: Option<string>) returns (r: Result<Option<UserRecord>, string>)
      ensures fault.Some? ==> r == Failure(fault.value)
      ensures fault.None? ==> r.Success? && IsFirstMatch(users, Username, username, r.value)
    {
      if fault.Some? {
        return Failure(fault.value);
      }
      r := Success(FirstMatch(users, Username, username));
    }

    /** `findByEmail`: the same, keyed on the email. */
    method FindByEmail(email: string, fault: Option<string>) returns (r: Result<Option<UserRecord>, string>)
      ensures fault.Some? ==> r == Failure(fault.value)
      ensures fault.None? ==> r.Success? && IsFirstMatch(users, Email, email, r.value)
    {
      if fault.Some? {
        return Failure(fault.value);
      }
      r := Success(FirstMatch(users, Email, email));
    }

    /** `create`: hash the password, append one document with both timestamps
        set to `stamp` under the id the store assigns (`newId`), and return
        it without the password. A failure of the hasher or of `addDoc` is
        rethrown and nothing is written. */
    method Create(data: NewUser, hasher: Hasher, salt: nat, newId: string, stamp: string, fault: Option<string>)
      returns (r: Result<PublicUser, string>)
      modifies this
      ensures fault.Some? ==> r == Failure(fault.value) && users == old(users)
      ensures fault.None? ==>
        && users == old(users) + [NewRecord(data, hasher, salt, newId, stamp)]
        && r == Success(PublicUser(newId, data.username, data.email, stamp, stamp))
    {
      if fault.Some? {
        return Failure(fault.value);
      }
      var hashed := hasher.hash(data.password, salt);
      var record := UserRecord(newId, data.username, data.email, hashed, stamp, stamp);
      users := users + [record];
      r := Success(WithoutPassword(record));
    }
  }
}
