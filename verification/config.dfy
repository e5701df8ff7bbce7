/**
 * The parsed configuration file: the records that the TOML parser hands to
 * the entrypoint script, with every optional key as an `Option`.
 */
module ConfigModel {
  import opened Wrappers

  /** One `[[user]]` table: the keys `username`, `password` and `password_hash`. */
  datatype UserEntry = UserEntry(
    username: Option<string>,
    password: Option<string>,
    passwordHash: Option<string>)

  /** A registered user: a name and the bcrypt hash the server checks against. */
  datatype User = User(username: string, passwordHash: string)

  /** The optional `access` table of a share: the `read` and `read_write` name lists. */
  datatype Access = Access(read: Option<seq<string>>, readWrite: Option<seq<string>>)

  /** One `[[share]]` table: `name`, `path` and the optional `access` table. */
  datatype ShareEntry = ShareEntry(
    name: Option<string>,
    path: Option<string>,
    access: Option<Access>)

  /** The whole configuration file. */
  datatype Config = Config(
    enableWeb: Option<bool>,
    useHttps: Option<bool>,
    domain: Option<string>,
    users: Option<seq<UserEntry>>,
    shares: Option<seq<ShareEntry>>)

  /** Why generation stops; each stands for a message followed by exit status 1. */
  datatype Error =
    | UsernameRequired       // "Username is required"
    | PasswordRequired       // "Password or password hash is required"
    | ShareNameMissing       // the lookup share['name'] fails before any check
    | ShareNameRequired      // "Share name is required"
    | SharePathRequired      // "Share path is required"
    | SharePathNotAbsolute   // "Share path must be absolute"

  /** The web file browser is on unless the file turns it off. */
  function EnableWeb(c: Config): bool { c.enableWeb.GetOr(true) }

  /** HTTPS is off unless the file turns it on. */
  function UseHttps(c: Config): bool { c.useHttps.GetOr(false) }

  /** The site address: the configured domain, else `localhost` with HTTPS and `*` without. */
  function Domain(c: Config): (d: string)
    ensures c.domain.None? && UseHttps(c) ==> d == "localhost"
    ensures c.domain.None? && !UseHttps(c) ==> d == "*"
    ensures c.domain.Some? ==> d == c.domain.value
  {
    if UseHttps(c) then c.domain.GetOr("localhost") else c.domain.GetOr("*")
  }

  function UserEntries(c: Config): seq<UserEntry> { c.users.GetOr([]) }

  function ShareEntries(c: Config): seq<ShareEntry> { c.shares.GetOr([]) }
}
