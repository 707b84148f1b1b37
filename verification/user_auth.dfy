/**
 * `AuthService`: registration as lookup-or-insert over the user store, and
 * the login check.
 */
module UserAuth {
  import opened Wrappers
  import opened Calendar
  import opened Entities

  /** The first stored user with the name, or none. */
  function FirstNamed(users: seq<User>, name: string): (r: Option<User>)
    ensures r.None? <==> forall i :: 0 <= i < |users| ==> users[i].username != name
    ensures r.Some? ==> exists i :: 0 <= i < |users| && users[i] == r.value && r.value.username == name
  {
    if |users| == 0 then None
    else if users[0].username == name then Some(users[0])
    else
      var r := FirstNamed(users[1..], name);
      assert r.Some? ==> exists i :: 0 <= i < |users| - 1 && users[1..][i] == r.value;
      r
  }

  /** A user appended to a store without that name is the one found under it. */
  lemma {:induction false} FoundAfterAppend(users: seq<User>, user: User)
    requires FirstNamed(users, user.username).None?
    ensures FirstNamed(users + [user], user.username) == Some(user)
  {
    if |users| > 0 {
      assert (users + [user])[1..] == users[1..] + [user];
      FoundAfterAppend(users[1..], user);
    }
  }

  /** The user store: what the user repository keeps, in the order of saving. */
  class UserRepository {
    var users: seq<User>

    constructor ()
      ensures users == []
    {
      users := [];
    }

    /** `findByUsername`: the user with that name, or null when there is none. */
    method FindByUsername(name: string) returns (r: Option<User>)
      ensures r == FirstNamed(users, name)
    {
      r := FirstNamed(users, name);
    }

    /** `save`: stores the user. */
    method Save(user: User)
      modifies this
      ensures users == old(users) + [user]
    {
      users := users + [user];
    }
  }

  /**
   * `register` on a store: the existing user with the name and the store
   * untouched, or a new user with no id, the name, the hash of the password
   * and the current time, appended to the store.
   */
  function RegisterSpec(store: seq<User>, username: string, password: string, hash: string -> string, now: Date): (seq<User>, User) {
    match FirstNamed(store, username)
    case Some(existing) => (store, existing)
    case None => var user := User(None, username, hash(password), now); (store + [user], user)
  }

  /** An existing name returns that user and saves nothing. */
  lemma RegisterExisting(store: seq<User>, username: string, password: string, hash: string -> string, now: Date)
    requires FirstNamed(store, username).Some?
    ensures RegisterSpec(store, username, password, hash, now) == (store, FirstNamed(store, username).value)
  {
  }

  /** A new name saves exactly one user: no id, that name, the hash of the password, the current time. */
  lemma RegisterNew(store: seq<User>, username: string, password: string, hash: string -> string, now: Date)
    requires FirstNamed(store, username).None?
    ensures var (after, user) := RegisterSpec(store, username, password, hash, now);
            && user == User(None, username, hash(password), now)
            && after == store + [user]
  {
  }

  /**
   * The returned user carries the requested name, and a second registration
   * under the same name returns the same user and saves nothing more.
   */
  lemma RegisterTwiceSavesOnce(store: seq<User>, username: string, password: string, password': string,
                               hash: string -> string, now: Date, later: Date)
    ensures var (after, user) := RegisterSpec(store, username, password, hash, now);
            && user.username == username
            && |after| <= |store| + 1
            && RegisterSpec(after, username, password', hash, later) == (after, user)
  {
    var (after, user) := RegisterSpec(store, username, password, hash, now);
    if FirstNamed(store, username).None? {
      FoundAfterAppend(store, user);
    }
  }

  class AuthService {
    const users: UserRepository
    /** PHP's `password_hash` with the default algorithm. */
    const passwordHash: string -> string

    constructor (users: UserRepository, passwordHash: string -> string)
      ensures this.users == users && this.passwordHash == passwordHash
    {
      this.users := users;
      this.passwordHash := passwordHash;
    }

    /** `register`: look the name up, and save a new user only when it is not taken. */
    method Register(username: string, password: string, now: Date) returns (user: User)
      modifies users
      ensures (users.users, user) == RegisterSpec(old(users.users), username, password, passwordHash, now)
    {
      var found := users.FindByUsername(username);
      if found.Some? {
        return found.value;
      }
      var hash := passwordHash(password);
      user := User(None, username, hash, now);
      users.Save(user);
    }

    /** `attempt` is not implemented: every name and password is accepted. */
    method Attempt(username: string, password: string) returns (loggedIn: bool)
      ensures loggedIn
    {
      loggedIn := true;
    }
  }
}
