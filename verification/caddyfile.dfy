/**
 * Rendering of the Caddyfile: a fixed header and the site address, one
 * `route` block per share (basic authentication, write prohibitions for
 * read-only users, a rewrite and a WebDAV handler), an optional file browser
 * per share, and a fixed trailer.
 */
module Caddyfile {
  import opened Wrappers
  import opened ConfigModel
  import opened Text
  import opened AccessLists
  import Users

  /** The comment lines at the top of every generated file. */
  const Banner := "# This file was automatically generated. Any changes will be overwritten.\n"
    + "# To change the configuration, edit /config/config.toml\n"
    + "# and restart the container.\n"
    + "\n"
    + "# Begin config\n"

  /** The line that opens the site block. */
  function SiteLine(useHttps: bool, domain: string): string {
    "http" + (if useHttps then "s" else "") + "://" + domain + " {\n"
  }

  function Header(useHttps: bool, domain: string): string {
    Banner + SiteLine(useHttps, domain)
  }

  /** Closes the site block. */
  const Trailer := "}\n# End config\n"

  /** `os.path.isabs` on POSIX: the path starts with a slash. */
  predicate IsAbs(path: string) {
    |path| > 0 && path[0] == '/'
  }

  /** A share that passed the checks. */
  datatype ValidShare = ValidShare(name: string, path: string, access: Option<Access>)

  /** The checks made on a `[[share]]` table, in the order they are made. */
  function ValidateShare(share: ShareEntry): Result<ValidShare, Error> {
    if share.name.None? then Err(ShareNameMissing)
    else if share.name.value == "" then Err(ShareNameRequired)
    else if share.path.None? || share.path.value == "" then Err(SharePathRequired)
    else if !IsAbs(share.path.value) then Err(SharePathNotAbsolute)
    else Ok(ValidShare(share.name.value, share.path.value, share.access))
  }

  /** The URL path under which a share is served. */
  function Route(name: string): string { "/share/" + name }

  /** Where the share's directory is mounted inside the container. */
  function Root(path: string): string { "/filesystem" + path }

  const CredentialIndent := "            "

  /** One `username password_hash` line of a basicauth block, without its line end. */
  function CredentialLine(u: User): string {
    CredentialIndent + u.username + " " + u.passwordHash
  }

  /** One `username password_hash` line of a basicauth block. */
  function Credential(u: User): string {
    CredentialLine(u) + "\n"
  }

  function Credentials(users: seq<User>): string {
    if users == [] then "" else Credentials(users[..|users| - 1]) + Credential(users[|users| - 1])
  }

  const BasicAuthOpenLine := "        basicauth {"
  const ReadWriteCommentLine := "            # Read-write access"
  const ReadCommentLine := "            # Read access"
  const BasicAuthCloseLine := "        }"

  const BasicAuthOpen := BasicAuthOpenLine + "\n"
  const ReadWriteComment := ReadWriteCommentLine + "\n"
  const ReadComment := ReadCommentLine + "\n"
  const BasicAuthClose := BasicAuthCloseLine + "\n\n"

  /** The basicauth block: read-write users first, then read-only users, each group under its comment. */
  function AuthBlock(g: Grants): string {
    BasicAuthOpen
    + (if |g.readWrite| > 0 then ReadWriteComment else "") + Credentials(g.readWrite)
    + (if |g.read| > 0 then ReadComment else "") + Credentials(g.read)
    + BasicAuthClose
  }

  /**
   * The write prohibition for one read-only user, as the dedented template
   * reads: a matcher for that user's requests with any method other than
   * GET, HEAD, OPTIONS and PROPFIND, and a handler answering them with 403.
   */
  function ProhibitTemplate(username: string): string {
    Unlines(ProhibitTemplateLines(username))
  }

  function ProhibitTemplateLines(username: string): seq<string> {
    [ "# Limit to read access (" + username + ")",
      "@prohibitWrite_" + username + " {",
      "    vars http.auth.user.id " + username,
      "    not method GET HEAD OPTIONS PROPFIND",
      "}",
      "handle @prohibitWrite_" + username + " {",
      "    respond \"Forbidden\" 403",
      "}",
      "" ]
  }

  /** The write prohibitions of all read-only users, in order, each indented two levels. */
  function Prohibitions(read: seq<User>): string {
    if read == [] then ""
    else Prohibitions(read[..|read| - 1]) + Indent(ProhibitTemplate(read[|read| - 1].username), 2)
  }

  function RewriteLine(route: string): string {
    Unlines(["rewrite " + route + " " + route + "/"])
  }

  /** The WebDAV handler, as the dedented template reads. */
  function WebdavTemplate(root: string, route: string): string {
    Unlines(WebdavTemplateLines(root, route))
  }

  function WebdavTemplateLines(root: string, route: string): seq<string> {
    [ "",
      "# WebDAV",
      "webdav {",
      "    root " + root,
      "    prefix " + route,
      "}" ]
  }

  /** The comment lines and the opening line of a share's route block. */
  function ShareHead(v: ValidShare): string {
    "    # Share: " + v.name + "\n"
    + "    # Access control: " + (if v.access.Some? then "enabled" else "disabled") + ", Real path: " + v.path + "\n"
    + "    route " + Route(v.name) + "* {\n"
  }

  /** The share's basicauth block, empty without an access table. */
  function AuthText(v: ValidShare, users: seq<User>): string {
    if v.access.Some? then AuthBlock(ResolveAccess(v.access.value, users)) else ""
  }

  /** The share's write prohibitions, empty without an access table. */
  function Restrictions(v: ValidShare, users: seq<User>): string {
    if v.access.Some? then Prohibitions(ResolveAccess(v.access.value, users).read) else ""
  }

  /**
   * The share's route block: head, basicauth block, write prohibitions,
   * rewrite, WebDAV handler and the closing brace.
   */
  function RouteBlock(v: ValidShare, users: seq<User>): string {
    ShareHead(v) + AuthText(v, users) + Restrictions(v, users)
    + Indent(RewriteLine(Route(v.name)), 2)
    + Indent(WebdavTemplate(Root(v.path), Route(v.name)), 2)
    + "    }\n\n"
  }

  /**
   * Everything one share adds to the file: the route block, then the file
   * browser, behind the same basicauth block, when the web interface is on.
   */
  function ShareBlock(v: ValidShare, users: seq<User>, enableWeb: bool): string {
    if enableWeb then
      RouteBlock(v, users)
      + "    handle_path /browse/" + v.name + "* {\n"
      + AuthText(v, users)
      + "        root * " + Root(v.path) + "\n"
      + "        file_server browse\n"
      + "    }\n\n"
    else RouteBlock(v, users)
  }

  /** The checks of the share loop: every share table checked in file order, or the error of the first bad one. */
  function ValidateShares(shares: seq<ShareEntry>): Result<seq<ValidShare>, Error> {
    if shares == [] then Ok([])
    else
      match ValidateShares(shares[..|shares| - 1])
      case Err(e) => Err(e)
      case Ok(valid) =>
        match ValidateShare(shares[|shares| - 1])
        case Err(e) => Err(e)
        case Ok(v) => Ok(valid + [v])
  }

  /** The text the share loop adds: the blocks of the shares in order. */
  function Blocks(shares: seq<ValidShare>, users: seq<User>, enableWeb: bool): string {
    if shares == [] then ""
    else Blocks(shares[..|shares| - 1], users, enableWeb) + ShareBlock(shares[|shares| - 1], users, enableWeb)
  }

  /**
   * The whole translation: users first, then the shares, then the file around
   * them. The source stops at the first bad share with nothing written, so
   * checking every share before rendering any gives the same outcome.
   */
  function Generate(cfg: Config, hash: string -> string): Result<string, Error> {
    match Users.ResolveUsers(UserEntries(cfg), hash)
    case Err(e) => Err(e)
    case Ok(users) =>
      match ValidateShares(ShareEntries(cfg))
      case Err(e) => Err(e)
      case Ok(valid) => Ok(Header(UseHttps(cfg), Domain(cfg)) + Blocks(valid, users, EnableWeb(cfg)) + Trailer)
  }

  /** Once a prefix of the shares fails its checks, the whole list fails with the same error. */
  lemma {:induction false} SharesErrorPersists(shares: seq<ShareEntry>, n: nat)
    requires n <= |shares|
    requires ValidateShares(shares[..n]).Err?
    ensures ValidateShares(shares) == ValidateShares(shares[..n])
    decreases |shares| - n
  {
    if n < |shares| {
      var init := shares[..|shares| - 1];
      assert init[..n] == shares[..n];
      SharesErrorPersists(init, n);
    } else {
      assert shares[..n] == shares;
    }
  }

  /** One more pass of the share checks. */
  lemma ValidateSharesStep(shares: seq<ShareEntry>, n: nat)
    requires n < |shares|
    requires ValidateShares(shares[..n]).Ok?
    ensures ValidateShare(shares[n]).Err? ==> ValidateShares(shares[..n + 1]) == Err(ValidateShare(shares[n]).error)
    ensures ValidateShare(shares[n]).Ok? ==>
      ValidateShares(shares[..n + 1]) == Ok(ValidateShares(shares[..n]).value + [ValidateShare(shares[n]).value])
  {
    assert shares[..n + 1][..n] == shares[..n];
  }

  /** One more block. */
  lemma BlocksStep(shares: seq<ValidShare>, v: ValidShare, users: seq<User>, enableWeb: bool)
    ensures Blocks(shares + [v], users, enableWeb) == Blocks(shares, users, enableWeb) + ShareBlock(v, users, enableWeb)
  {
    assert (shares + [v])[..|shares|] == shares;
  }

  /** One more credential line. */
  lemma CredentialsStep(users: seq<User>, j: nat)
    requires j < |users|
    ensures Credentials(users[..j + 1]) == Credentials(users[..j]) + Credential(users[j])
  {
    assert users[..j + 1][..j] == users[..j];
  }

  /** Builds the basicauth block line by line. */
  method BuildAuth(g: Grants) returns (auth: string)
    ensures auth == AuthBlock(g)
  {
    auth := BasicAuthOpen;
    if |g.readWrite| > 0 {
      auth := auth + ReadWriteComment;
    }
    ghost var start := auth;
    for j := 0 to |g.readWrite|
      invariant auth == start + Credentials(g.readWrite[..j])
    {
      CredentialsStep(g.readWrite, j);
      Assoc(start, Credentials(g.readWrite[..j]), Credential(g.readWrite[j]));
      auth := auth + Credential(g.readWrite[j]);
    }
    assert g.readWrite[..|g.readWrite|] == g.readWrite;
    if |g.read| > 0 {
      auth := auth + ReadComment;
    }
    start := auth;
    for j := 0 to |g.read|
      invariant auth == start + Credentials(g.read[..j])
    {
      CredentialsStep(g.read, j);
      Assoc(start, Credentials(g.read[..j]), Credential(g.read[j]));
      auth := auth + Credential(g.read[j]);
    }
    assert g.read[..|g.read|] == g.read;
    auth := auth + BasicAuthClose;
  }

  /** The body of the share loop for a share that passed the checks. */
  method RenderShare(v: ValidShare, users: seq<User>, enableWeb: bool) returns (block: string)
    ensures block == ShareBlock(v, users, enableWeb)
  {
    var sharePath := Root(v.path);
    var shareRoute := Route(v.name);
    var useAuth := v.access.Some?;
    block := "    # Share: " + v.name + "\n";
    block := block + "    # Access control: " + (if useAuth then "enabled" else "disabled") + ", Real path: " + v.path + "\n";
    block := block + "    route " + shareRoute + "* {\n";
    assert block == ShareHead(v);
    var auth := "";
    if useAuth {
      var g := ResolveAccess(v.access.value, users);
      auth := BuildAuth(g);
      block := block + auth;
      ghost var start := block;
      for j := 0 to |g.read|
        invariant block == start + Prohibitions(g.read[..j])
      {
        assert g.read[..j + 1][..j] == g.read[..j];
        var prohibition := Indent(ProhibitTemplate(g.read[j].username), 2);
        Assoc(start, Prohibitions(g.read[..j]), prohibition);
        block := block + prohibition;
      }
      assert g.read[..|g.read|] == g.read;
    }
    assert block == ShareHead(v) + AuthText(v, users) + Restrictions(v, users);
    block := block + Indent(RewriteLine(shareRoute), 2);
    block := block + Indent(WebdavTemplate(sharePath, shareRoute), 2);
    block := block + "    }\n\n";
    if enableWeb {
      block := block + "    handle_path /browse/" + v.name + "* {\n";
      block := block + auth;
      block := block + "        root * " + sharePath + "\n";
      block := block + "        file_server browse\n";
      block := block + "    }\n\n";
    }
  }

  /** The checks at the head of the share loop, made in the order the script makes them. */
  method CheckShare(share: ShareEntry) returns (r: Result<ValidShare, Error>)
    ensures r == ValidateShare(share)
  {
    if share.name.None? {
      return Err(ShareNameMissing);
    }
    if share.name.value == "" {
      return Err(ShareNameRequired);
    }
    if share.path.None? || share.path.value == "" {
      return Err(SharePathRequired);
    }
    if !IsAbs(share.path.value) {
      return Err(SharePathNotAbsolute);
    }
    return Ok(ValidShare(share.name.value, share.path.value, share.access));
  }

  /** With users and shares accepted, the file is the header, the blocks and the trailer. */
  lemma GenerateOk(cfg: Config, hash: string -> string, users: seq<User>, valid: seq<ValidShare>)
    requires Users.ResolveUsers(UserEntries(cfg), hash) == Ok(users)
    requires ValidateShares(ShareEntries(cfg)) == Ok(valid)
    ensures Generate(cfg, hash) == Ok(Header(UseHttps(cfg), Domain(cfg)) + Blocks(valid, users, EnableWeb(cfg)) + Trailer)
  {
  }

  /** The blocks of all shares when every share passes its checks, or the error of the first that fails. */
  function SharesText(shares: seq<ShareEntry>, users: seq<User>, enableWeb: bool): Result<string, Error> {
    match ValidateShares(shares)
    case Err(e) => Err(e)
    case Ok(valid) => Ok(Blocks(valid, users, enableWeb))
  }

  /** The script's loop over the shares: check one share, then write its block, stopping at the first bad one. */
  method RenderShares(shares: seq<ShareEntry>, users: seq<User>, enableWeb: bool) returns (r: Result<string, Error>)
    ensures r == SharesText(shares, users, enableWeb)
  {
    var text := "";
    ghost var valid: seq<ValidShare> := [];
    for i := 0 to |shares|
      invariant ValidateShares(shares[..i]) == Ok(valid)
      invariant text == Blocks(valid, users, enableWeb)
    {
      var checked := CheckShare(shares[i]);
      ValidateSharesStep(shares, i);
      if checked.Err? {
        SharesErrorPersists(shares, i + 1);
        return Err(checked.error);
      }
      var v := checked.value;
      var block := RenderShare(v, users, enableWeb);
      BlocksStep(valid, v, users, enableWeb);
      text := text + block;
      valid := valid + [v];
    }
    assert shares[..|shares|] == shares;
    return Ok(text);
  }

  /** The script from reading the parsed configuration to the finished Caddyfile text. */
  method GenerateCaddyfile(cfg: Config, hash: string -> string) returns (r: Result<string, Error>)
    ensures r == Generate(cfg, hash)
  {
    var enableWeb := cfg.enableWeb.GetOr(true);
    var useHttps := cfg.useHttps.GetOr(false);
    var domain := if useHttps then cfg.domain.GetOr("localhost") else cfg.domain.GetOr("*");
    var registered := Users.RegisterUsers(cfg.users.GetOr([]), hash);
    if registered.Err? {
      return Err(registered.error);
    }
    var users := registered.value;
    var blocks := RenderShares(cfg.shares.GetOr([]), users, enableWeb);
    if blocks.Err? {
      return Err(blocks.error);
    }
    GenerateOk(cfg, hash, users, ValidateShares(ShareEntries(cfg)).value);
    return Ok(Header(useHttps, domain) + blocks.value + Trailer);
  }
}
