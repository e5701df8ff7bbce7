/**
 * Access lists of a share: the `read` list loses every name that is also in
 * `read_write`, then both lists are looked up in the registered users, which
 * keeps the order of the registered users and drops names nobody registered.
 */
module AccessLists {
  import opened Wrappers
  import opened ConfigModel

  /** `[x for x in read if x not in read_write]` */
  function Difference(read: seq<string>, readWrite: seq<string>): seq<string> {
    if read == [] then []
    else (if read[0] in readWrite then [] else [read[0]]) + Difference(read[1..], readWrite)
  }

  /** `[x for x in users if x["username"] in names]` */
  function Resolve(users: seq<User>, names: seq<string>): seq<User> {
    if users == [] then []
    else (if users[0].username in names then [users[0]] else []) + Resolve(users[1..], names)
  }

  /** The users a share admits, read-only and read-write. */
  datatype Grants = Grants(read: seq<User>, readWrite: seq<User>)

  /** The access table of a share resolved against the registered users; a missing list is empty. */
  function ResolveAccess(access: Access, users: seq<User>): Grants {
    var read := access.read.GetOr([]);
    var readWrite := access.readWrite.GetOr([]);
    Grants(Resolve(users, Difference(read, readWrite)), Resolve(users, readWrite))
  }

  /** `a` is `b` with some elements left out and the rest in the same order. */
  predicate IsSubsequence<T(==)>(a: seq<T>, b: seq<T>) {
    a == [] ||
    (b != [] && ((a[0] == b[0] && IsSubsequence(a[1..], b[1..])) || IsSubsequence(a, b[1..])))
  }

  /** A name stays in the read list exactly when it is not also granted read-write. */
  lemma {:induction false} DifferenceMembers(read: seq<string>, readWrite: seq<string>, x: string)
    ensures x in Difference(read, readWrite) <==> x in read && x !in readWrite
  {
    if read != [] {
      DifferenceMembers(read[1..], readWrite, x);
      assert read == [read[0]] + read[1..];
    }
  }

  /** Lookup keeps exactly the registered users whose name is listed. */
  lemma {:induction false} ResolveMembers(users: seq<User>, names: seq<string>, u: User)
    ensures u in Resolve(users, names) <==> u in users && u.username in names
  {
    if users != [] {
      ResolveMembers(users[1..], names, u);
      assert users == [users[0]] + users[1..];
    }
  }

  /** Lookup keeps the order of the registered users. */
  lemma {:induction false} ResolveKeepsOrder(users: seq<User>, names: seq<string>)
    ensures IsSubsequence(Resolve(users, names), users)
  {
    if users != [] {
      ResolveKeepsOrder(users[1..], names);
      var r := Resolve(users, names);
      if users[0].username in names {
        assert r[0] == users[0] && r[1..] == Resolve(users[1..], names);
      } else {
        assert r == Resolve(users[1..], names);
      }
    }
  }

  /** The order of the names in an access list plays no part: only which names it holds. */
  lemma {:induction false} ResolveIgnoresListOrder(users: seq<User>, names1: seq<string>, names2: seq<string>)
    requires forall x :: x in names1 <==> x in names2
    ensures Resolve(users, names1) == Resolve(users, names2)
  {
    if users != [] {
      ResolveIgnoresListOrder(users[1..], names1, names2);
    }
  }

  /** A read-only user is a registered user listed under `read` and not under `read_write`. */
  lemma ReadGrantMembers(access: Access, users: seq<User>, u: User)
    ensures u in ResolveAccess(access, users).read <==>
      u in users && u.username in access.read.GetOr([]) && u.username !in access.readWrite.GetOr([])
  {
    var read, readWrite := access.read.GetOr([]), access.readWrite.GetOr([]);
    ResolveMembers(users, Difference(read, readWrite), u);
    DifferenceMembers(read, readWrite, u.username);
  }

  /** A read-write user is a registered user listed under `read_write`. */
  lemma ReadWriteGrantMembers(access: Access, users: seq<User>, u: User)
    ensures u in ResolveAccess(access, users).readWrite <==>
      u in users && u.username in access.readWrite.GetOr([])
  {
    ResolveMembers(users, access.readWrite.GetOr([]), u);
  }

  /** No user name is both read-only and read-write: listing a name in both lists grants read-write only. */
  lemma GrantsDisjoint(access: Access, users: seq<User>, u: User, v: User)
    requires u in ResolveAccess(access, users).read
    requires v in ResolveAccess(access, users).readWrite
    ensures u.username != v.username
  {
    ReadGrantMembers(access, users, u);
    ReadWriteGrantMembers(access, users, v);
  }

  /** Both resolved lists follow the order of the registered users. */
  lemma GrantsKeepOrder(access: Access, users: seq<User>)
    ensures IsSubsequence(ResolveAccess(access, users).read, users)
    ensures IsSubsequence(ResolveAccess(access, users).readWrite, users)
  {
    var read, readWrite := access.read.GetOr([]), access.readWrite.GetOr([]);
    ResolveKeepsOrder(users, Difference(read, readWrite));
    ResolveKeepsOrder(users, readWrite);
  }
}
