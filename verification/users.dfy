/**
 * User registration: every `[[user]]` table must name a user and give either a
 * plaintext password, which is hashed, or a ready-made password hash.
 * The hashing command is the parameter `hash`, which stands for running
 * `caddy hash-password --plaintext <password>` and stripping its output.
 */
module Users {
  import opened Wrappers
  import opened ConfigModel

  /** What a `[[user]]` table must contain to be accepted. */
  predicate ValidUser(entry: UserEntry) {
    entry.username.Some? && (entry.password.Some? || entry.passwordHash.Some?)
  }

  /** The hash a valid entry registers: the plaintext password, when given, wins over `password_hash`. */
  function CredentialHash(entry: UserEntry, hash: string -> string): string
    requires entry.password.Some? || entry.passwordHash.Some?
  {
    if entry.password.Some? then hash(entry.password.value) else entry.passwordHash.value
  }

  /** The error a table that is not valid stops the program with: the username is checked first. */
  function UserError(entry: UserEntry): Error {
    if entry.username.None? then UsernameRequired else PasswordRequired
  }

  /** One pass of the registration loop. */
  function ResolveUser(entry: UserEntry, hash: string -> string): Result<User, Error> {
    if entry.username.None? then Err(UsernameRequired)
    else if entry.password.Some? then Ok(User(entry.username.value, hash(entry.password.value)))
    else if entry.passwordHash.Some? then Ok(User(entry.username.value, entry.passwordHash.value))
    else Err(PasswordRequired)
  }

  /** The whole registration loop: the users in file order, or the error of the first bad table. */
  function ResolveUsers(entries: seq<UserEntry>, hash: string -> string): Result<seq<User>, Error> {
    if entries == [] then Ok([])
    else
      match ResolveUsers(entries[..|entries| - 1], hash)
      case Err(e) => Err(e)
      case Ok(users) =>
        match ResolveUser(entries[|entries| - 1], hash)
        case Err(e) => Err(e)
        case Ok(u) => Ok(users + [u])
  }

  /** The registration loop, appending to the list of users and stopping at the first bad table. */
  method RegisterUsers(entries: seq<UserEntry>, hash: string -> string) returns (r: Result<seq<User>, Error>)
    ensures r == ResolveUsers(entries, hash)
  {
    var users: seq<User> := [];
    for i := 0 to |entries|
      invariant ResolveUsers(entries[..i], hash) == Ok(users)
    {
      var user := entries[i];
      assert entries[..i + 1][..i] == entries[..i];
      if user.username.None? {
        ErrorPersists(entries, i + 1, hash);
        return Err(UsernameRequired);
      }
      var username := user.username.value;
      var passwordHash: string;
      if user.password.Some? {
        passwordHash := hash(user.password.value);
      } else if user.passwordHash.Some? {
        passwordHash := user.passwordHash.value;
      } else {
        ErrorPersists(entries, i + 1, hash);
        return Err(PasswordRequired);
      }
      users := users + [User(username, passwordHash)];
    }
    assert entries[..|entries|] == entries;
    return Ok(users);
  }

  /** Once a prefix of the tables fails, the whole registration fails with the same error. */
  lemma {:induction false} ErrorPersists(entries: seq<UserEntry>, n: nat, hash: string -> string)
    requires n <= |entries|
    requires ResolveUsers(entries[..n], hash).Err?
    ensures ResolveUsers(entries, hash) == ResolveUsers(entries[..n], hash)
    decreases |entries| - n
  {
    if n < |entries| {
      var init := entries[..|entries| - 1];
      assert init[..n] == entries[..n];
      ErrorPersists(init, n, hash);
    } else {
      assert entries[..n] == entries;
    }
  }

  /** Registration succeeds exactly when every table is valid. */
  lemma {:induction false} ResolveUsersSucceeds(entries: seq<UserEntry>, hash: string -> string)
    ensures ResolveUsers(entries, hash).Ok? <==> forall i :: 0 <= i < |entries| ==> ValidUser(entries[i])
  {
    if entries != [] {
      var init := entries[..|entries| - 1];
      ResolveUsersSucceeds(init, hash);
      assert forall i :: 0 <= i < |init| ==> init[i] == entries[i];
    }
  }

  /** On success there is one user per table, in file order, with the name given and the hash that wins. */
  lemma {:induction false} ResolveUsersValues(entries: seq<UserEntry>, hash: string -> string)
    requires ResolveUsers(entries, hash).Ok?
    ensures var users := ResolveUsers(entries, hash).value;
      |users| == |entries| &&
      forall i :: 0 <= i < |entries| ==>
        ValidUser(entries[i]) &&
        users[i] == User(entries[i].username.value, CredentialHash(entries[i], hash))
  {
    if entries != [] {
      var init := entries[..|entries| - 1];
      ResolveUsersValues(init, hash);
      assert forall i :: 0 <= i < |init| ==> init[i] == entries[i];
    }
  }

  /** On failure the error is that of the first table that is not valid. */
  lemma {:induction false} ResolveUsersFailure(entries: seq<UserEntry>, hash: string -> string)
    requires ResolveUsers(entries, hash).Err?
    ensures exists i ::
              && 0 <= i < |entries|
              && !ValidUser(entries[i])
              && (forall j :: 0 <= j < i ==> ValidUser(entries[j]))
              && ResolveUsers(entries, hash).error == UserError(entries[i])
  {
    var init := entries[..|entries| - 1];
    var last := |entries| - 1;
    assert forall i :: 0 <= i < |init| ==> init[i] == entries[i];
    if ResolveUsers(init, hash).Err? {
      ResolveUsersFailure(init, hash);
      var i :|
        && 0 <= i < |init|
        && !ValidUser(init[i])
        && (forall j :: 0 <= j < i ==> ValidUser(init[j]))
        && ResolveUsers(init, hash).error == UserError(init[i]);
      assert !ValidUser(entries[i]);
    } else {
      ResolveUsersSucceeds(init, hash);
      assert !ValidUser(entries[last]);
    }
  }
}
