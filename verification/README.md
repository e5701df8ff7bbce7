# Caddy WebDAV entrypoint: configuration to Caddyfile

The container's entrypoint script (`entrypoint.py`) reads a TOML
configuration and writes the Caddyfile that the Caddy server runs. Between
reading and writing, it runs one deterministic translation:

* **User registration.** Each `[[user]]` table needs a `username` and either
  a plaintext `password` or a ready-made `password_hash`. A plaintext
  password wins and is hashed by `caddy hash-password`.
* **Share checks.** Each `[[share]]` table needs a non-empty `name` and a
  non-empty absolute `path`.
* **Access lists.** An optional `access` table has `read` and `read_write`
  lists. The `read` list loses every name that is also in `read_write`. Both
  lists are then looked up in the registered users, which keeps the order of
  the registered users and drops unknown names.
* **Rendering.** The file is a fixed comment header and a site line
  (`http[s]://domain {`), then per share:
  * a `route /share/<name>*` block with the basicauth block;
  * a write prohibition (a `@prohibitWrite_<user>` matcher that lets through
    only GET, HEAD, OPTIONS and PROPFIND, and a 403 handler) per read-only
    user;
  * a rewrite and a WebDAV handler rooted at `/filesystem<path>`;
  * when the web interface is on, a `handle_path /browse/<name>*` file
    browser behind the same basicauth block.

  A fixed trailer closes the file.

The model is in Dafny, one module per concern:

* `Wrappers`: `Option` and `Result`.
* `ConfigModel`: the parsed configuration records, with every optional key as
  an `Option`. Also the error values and the defaults of `enable_web`,
  `use_https` and `domain`.
* `Text`: the `indent` helper.
  * It is Python's `textwrap.indent`: the prefix goes before every line that
    is not blank.
  * Lines end where `str.splitlines` ends them, and a line is blank when
    `str.isspace` holds for all of it.
  * The module also views a text as a list of "\n"-terminated lines
    (`Unlines`, `Lines`).
* `Users`: the registration loop. `RegisterUsers` is a method with a loop
  invariant. It is proved equal to the recursive specification
  `ResolveUsers`, and the properties are proved about that specification.
* `AccessLists`: the two list comprehensions and their membership and order
  properties.
* `Caddyfile`: the rendering functions and the imperative share loop.
  * `RenderShares` is the share loop: it accumulates the blocks with `+=`
    and returns at the first bad share. It is proved equal to `SharesText`.
  * `GenerateCaddyfile` registers the users, runs the share loop and frames
    the blocks with the header and trailer. It is proved equal to
    `Generate`.
  * `RenderShare` and `BuildAuth` build one share's block and its basicauth
    block.
  * `CheckShare` makes the checks at the head of the loop.
* `Layout`: the basicauth block as a list of lines, and a parser that reads
  the grants back from those lines. The parser is the block's partner in a
  round trip.
* `ShareLayout`: one share's output as a list of lines.
  * Which directive a line opens is read from one column. Column 4 holds
    site-level directives, and column 8 holds those inside a route or browse
    block.
  * This gives exact statements about which basicauth, matcher and browse
    lines a share produces, for any names substituted into them.
* `Properties`: when generation fails and with which error, and how a
  successful output is laid out.

`Generate` checks every share, then renders the blocks of the accepted
shares. The script interleaves the two: it checks a share, appends its block,
and moves to the next share. When a share fails, the script stops before
writing anything. So both orders give the same result (the file, or the error
of the first bad share). `RenderShares` keeps the script's interleaved
order, and `GenerateCaddyfile`, which calls it, is proved equal to `Generate`.

A share without a `name` key fails on the progress message
`share['name']` (entrypoint.py line 74), before the explicit check. The model
gives this its own error, `ShareNameMissing`, distinct from
`ShareNameRequired` for an empty name.

## Model

| member | source | states |
|---|---|---|
| `ConfigModel.Domain` | entrypoint.py:25-30 | the site address is the configured domain when one is given, otherwise `localhost` with HTTPS and `*` without |
| `Users.RegisterUsers` | entrypoint.py:35-62 | the registration loop returns the users in file order, or the error of the first bad table, exactly as `ResolveUsers` specifies |
| `Users.ErrorPersists` | entrypoint.py:36-59 | once the tables up to some point fail, registration of the whole list fails with that same error (the loop exits at the first bad table) |
| `Users.ResolveUsersSucceeds` | entrypoint.py:37-59 | registration succeeds if and only if every table has a username and a password or password hash |
| `Users.ResolveUsersValues` | entrypoint.py:41-61 | on success there is one user per table, in file order; each has the table's username and, as hash, the hashed plaintext password when one is given, else the given `password_hash` |
| `Users.ResolveUsersFailure` | entrypoint.py:37-59 | on failure the error is that of the first table that is not valid: "username required" when it has no username, else "password or hash required" |
| `AccessLists.DifferenceMembers` | entrypoint.py:104 | a name stays in the read list if and only if it is in `read` and not in `read_write` |
| `AccessLists.ResolveMembers` | entrypoint.py:107-108 | lookup keeps exactly the registered users whose name is listed |
| `AccessLists.ResolveKeepsOrder` | entrypoint.py:107-108 | the looked-up users are a subsequence of the registered users (their order, nothing added) |
| `AccessLists.ResolveIgnoresListOrder` | entrypoint.py:107-108 | two name lists with the same members give the same users: order and repetition in the access list play no part |
| `AccessLists.ReadGrantMembers` | entrypoint.py:99-108 | a user is read-only in a share if and only if it is registered, listed under `read` and not listed under `read_write` (a missing list counts as empty) |
| `AccessLists.ReadWriteGrantMembers` | entrypoint.py:99-108 | a user is read-write in a share if and only if it is registered and listed under `read_write` |
| `AccessLists.GrantsDisjoint` | entrypoint.py:103-108 | no read-only user shares a name with a read-write user: a name in both lists is granted read-write only |
| `AccessLists.GrantsKeepOrder` | entrypoint.py:106-108 | both resolved lists follow the order of the registered users |
| `Text.PrefixLinesAppend` | entrypoint.py:8-9 | `indent` works line by line: indenting a text split after a line break is indenting both parts |
| `Text.PrefixLinesOfLine` | entrypoint.py:8-9 | a single non-blank line gets the prefix in front of it |
| `Text.PrefixLinesOfEmptyLine` | entrypoint.py:8-9 | an empty line is left unindented |
| `Text.StripPrefixesPrefixLines` | entrypoint.py:8-9 | removing the prefix from every non-blank line gives back the original text, for any text and any prefix without line breaks |
| `Text.PrefixLinesUnlines` | entrypoint.py:8-9 | indenting a text made of single lines is indenting each line on its own, blank lines excepted |
| `Text.Spaces` | entrypoint.py:9 | the prefix `" " * n` is exactly `n` characters, all of them spaces |
| `Caddyfile.BuildAuth` | entrypoint.py:110-122 | the basicauth block built line by line is the opening line, the read-write comment when there are read-write users, their credential lines, the read comment when there are read-only users, their credential lines, and the closing lines |
| `Caddyfile.CheckShare` | entrypoint.py:74-85 | the checks at the head of the share loop, in the script's order: name key missing, name empty, path missing or empty, path not absolute |
| `Caddyfile.RenderShare` | entrypoint.py:87-166 | the text the loop body appends for an accepted share is its block: head, basicauth block, write prohibitions of the read-only users, rewrite, WebDAV handler, and the browse block when the web interface is on |
| `Caddyfile.RenderShares` | entrypoint.py:73-168 | the loop that checks each share and appends its block yields exactly `SharesText`: the error of the first bad share, or the blocks of all shares in order |
| `Caddyfile.GenerateCaddyfile` | entrypoint.py:25-170 | the whole script, with its early exits, yields exactly `Generate`: the error of the first bad user or share, or header, share blocks and trailer |
| `Caddyfile.SharesErrorPersists` | entrypoint.py:73-85 | once a share fails its checks, the whole share list fails with that error |
| `Properties.ValidateShareAccepts` | entrypoint.py:75-85 | a share passes if and only if it has a non-empty name and an absolute path, and then keeps its name, path and access table |
| `Properties.ValidateSharesSucceeds` | entrypoint.py:73-85 | the share checks pass if and only if every share table is acceptable |
| `Properties.ValidateSharesValues` | entrypoint.py:73-88 | when the checks pass there is one accepted share per table, in file order, each the result of checking that table |
| `Properties.ValidateSharesFailure` | entrypoint.py:73-85 | when a share is not acceptable and all before it are, the checks fail with that share's error |
| `Properties.ShareErrors` | entrypoint.py:74-85 | which error each kind of bad share table causes: missing name key, empty name, missing or empty path, relative path |
| `Properties.BlocksAppend` | entrypoint.py:73-166 | the text of two runs of shares is the text of the first run followed by that of the second |
| `Properties.BlocksSplit` | entrypoint.py:73-166 | share `k`'s block sits between the blocks of the shares before it and those of the shares after it |
| `Properties.GenerateSucceeds` | entrypoint.py:35-85 | generation succeeds if and only if every user table and every share table is acceptable |
| `Properties.GenerateUserFailure` | entrypoint.py:36-59 | the first bad user table decides the error, whatever the shares are |
| `Properties.GenerateShareFailure` | entrypoint.py:73-85 | with every user valid, the first bad share table decides the error |
| `Properties.GenerateLayout` | entrypoint.py:65-170 | a generated file is the header, the block of every share in file order rendered from that share's checked fields, and the trailer |
| `Properties.GenerateFraming` | entrypoint.py:65-170 | a generated file starts with the comment header and the site line and ends with `}\n# End config\n` |
| `Properties.SiteAddress` | entrypoint.py:26-71 | the site line's scheme is `https` if and only if HTTPS is on; without a domain it reads `https://localhost {` or `http://* {`; with one, it ends with that domain |
| `Properties.EmptyConfig` | entrypoint.py:25-170 | an empty configuration gives just the header, an open `http://*` site and the trailer |
| `Layout.CredentialsLines` | entrypoint.py:114-120 | the credentials of a group are one `username password_hash` line per user, in order |
| `Layout.GroupLinesText` | entrypoint.py:112-120 | a group's text is its comment line, present only for a non-empty group, followed by its credential lines |
| `Layout.AuthLinesText` | entrypoint.py:110-122 | the joined lines of a basicauth block are the opening line, both groups and the closing lines |
| `Layout.AuthBlockLines` | entrypoint.py:110-122 | the basicauth text is exactly the join of its lines |
| `Layout.ParseCredentialLine` | entrypoint.py:115 | a credential line reads back as its user: the name up to the first space, the hash after it |
| `Layout.TakeCredentialLines` | entrypoint.py:114-120 | a run of credential lines reads back as its users, in order, up to the first line that is not a credential |
| `Layout.ParseGroupLines` | entrypoint.py:112-120 | a group under its comment reads back as its users; an empty group has no lines |
| `Layout.ParseReadGroup` | entrypoint.py:117-122 | the read-only group and the closing lines read back, and start with neither a credential nor the read-write comment |
| `Layout.ParseAuthLines` | entrypoint.py:110-122 | round trip: the lines of a basicauth block read back as exactly the read-only and read-write users it was written from |
| `Layout.ParseAuthBlock` | entrypoint.py:110-122 | round trip on the text: split at line ends and read back, the basicauth block gives back its grants |
| `Layout.AuthLinesNoNewlines` | entrypoint.py:110-122 | no line of a basicauth block contains a line end |
| `Layout.AuthComments` | entrypoint.py:112-120 | the `# Read-write access` line is in the block if and only if there are read-write users, and the `# Read access` line if and only if there are read-only users |
| `ShareLayout.ProhibitIndent` | entrypoint.py:128-142 | one indented write prohibition is the join of its template lines, each indented by two levels |
| `ShareLayout.ProhibitionsText` | entrypoint.py:128-142 | the write prohibitions of the read-only users are the join of their lines, user by user in order |
| `ShareLayout.ProhibitLinesShape` | entrypoint.py:128-142 | a write prohibition has nine lines: the template lines (comment, matcher, user test, `not method GET HEAD OPTIONS PROPFIND`, handler answering 403) each indented by eight spaces, then an empty line |
| `ShareLayout.HeadText` | entrypoint.py:92-94 | the share's head is its two comment lines and the `route /share/<name>* {` line |
| `ShareLayout.GrantsSingleLine` | entrypoint.py:106-108 | resolved users are registered users, so when no registered name or hash has a line break, neither has any resolved one |
| `ShareLayout.AuthTextText` | entrypoint.py:96-124 | the share's basicauth text is the join of its lines, and is empty without an access table |
| `ShareLayout.RestrictionsText` | entrypoint.py:128-142 | the share's write prohibitions are the join of their lines, and are empty without an access table |
| `ShareLayout.RewriteText` | entrypoint.py:144 | the indented rewrite is one line `rewrite <route> <route>/` with eight spaces in front |
| `ShareLayout.WebdavText` | entrypoint.py:145-156 | the indented WebDAV handler is an empty line, then the handler's lines with `root` and `prefix`, each indented by eight spaces |
| `ShareLayout.RouteText` | entrypoint.py:92-158 | the route block is the join of head, basicauth, prohibition, rewrite, WebDAV and closing lines |
| `ShareLayout.BrowseTailText` | entrypoint.py:164-166 | the end of the browse block is the `root * /filesystem<path>` and `file_server browse` lines and the closing brace |
| `ShareLayout.BrowseText` | entrypoint.py:161-166 | the browse block is its opening line, the same basicauth text as the route block, and its tail |
| `ShareLayout.ShareText` | entrypoint.py:92-166 | everything one share adds is the join of its lines |
| `ShareLayout.ShareBlockLines` | entrypoint.py:92-166 | splitting a share's text at line ends gives exactly its lines, so what holds of the lines holds of the text |
| `ShareLayout.HeadColumns` | entrypoint.py:92-94 | no line of the head opens a basicauth, matcher or browse block |
| `ShareLayout.GroupColumns` | entrypoint.py:112-120 | comment and credential lines open no block |
| `ShareLayout.AuthColumns` | entrypoint.py:110-122 | in a basicauth block only the first line opens a basicauth block, and nothing else is marked |
| `ShareLayout.AuthTextColumns` | entrypoint.py:96-124 | a share has one basicauth opening line in its auth text when it has an access table, none otherwise |
| `ShareLayout.ProhibitColumns` | entrypoint.py:128-142 | a write prohibition has exactly one marked line: the matcher of its user |
| `ShareLayout.ProhibitionColumns` | entrypoint.py:128-142 | the marked lines of the prohibitions are the matchers of the read-only users, in order |
| `ShareLayout.RewriteColumns` | entrypoint.py:144 | the rewrite line opens no block |
| `ShareLayout.WebdavColumns` | entrypoint.py:145-156 | the WebDAV handler's lines open no basicauth, matcher or browse block |
| `ShareLayout.BrowseTailColumns` | entrypoint.py:158-166 | the closing lines of the route block and the tail of the browse block open no block |
| `ShareLayout.RestrictionColumns` | entrypoint.py:98-142 | the marked lines of a share's restrictions are the matchers of its read-only users, and none without an access table |
| `ShareLayout.RouteColumns` | entrypoint.py:92-158 | the marked lines of a route block are those of its basicauth text followed by those of its prohibitions |
| `ShareLayout.BrowseColumns` | entrypoint.py:161-166 | the marked lines of a browse block are its opening line and those of its basicauth text |
| `ShareLayout.ShareColumns` | entrypoint.py:92-166 | the marked lines of a share's output: route block's, then the browse block's when the web interface is on |
| `ShareLayout.ShareBasicAuthLines` | entrypoint.py:90-163 | a share with an access table has one basicauth block, or two (route and browse) when the web interface is on; a share without one has none |
| `ShareLayout.ShareMatcherLines` | entrypoint.py:98-142 | the matchers of a share are those of its read-only users, in the order of the registered users, and there are none without an access table |
| `ShareLayout.ShareBrowseLines` | entrypoint.py:161-166 | a share has a browse block if and only if the web interface is on |
| `ShareLayout.MatcherLineInjective` | entrypoint.py:133 | different user names give different matcher lines |
| `ShareLayout.MatcherExactlyForReadUsers` | entrypoint.py:98-142 | in a share with an access table, a registered user has a matcher line if and only if the user is read-only |
| `ShareLayout.NoMatcherForReadWriteUsers` | entrypoint.py:103-142 | a read-write user never gets a matcher, even when also listed as read-only |
| `ShareLayout.OpenShareLines` | entrypoint.py:90-142 | a share without an access table has neither a basicauth line nor any matcher line |

## Left out

- Reading the configuration: the existence check, copying the example file and the TOML parser (entrypoint.py lines 14-23). The model starts from the parsed records. A key absent from a table is `None`.
- Values of the wrong TOML type (a string where a list or a boolean is expected) are not modelled. On a string, Python's `in` would test for a substring, and truthiness would decide `enable_web` and `use_https`.
- The `caddy hash-password` subprocess and the stripping of its output are the function parameter `hash`.
- Writing `/app/Caddyfile`, starting `caddy run`, and every progress message are not modelled. The messages do not affect the generated text.
- `exit(1)` after an error message, and the `KeyError` on a missing share name, are modelled as an `Err` value. Nothing is written in either case, which the model matches.
- `textwrap.dedent` is not modelled. The two templates are written as their dedented lines. This is the same text whenever the substituted name, path and user names contain no line break.
- Line splitting counts "\r\n" as two line ends, where `str.splitlines` sees one. For `indent` this changes nothing: the lone "\n" line is blank and is never prefixed.
- Layout.ParseCredentialLine: requires well-formed users: no space and no line break in the name, a name not starting with `#`, and no line break in the hash. For other users the script still writes the block, but it does not read back as the same users.
- Layout.TakeCredentialLines: requires well-formed users: no space and no line break in the name, a name not starting with `#`, and no line break in the hash. For other users the script still writes the block, but it does not read back as the same users.
- Layout.ParseGroupLines: requires well-formed users: no space and no line break in the name, a name not starting with `#`, and no line break in the hash. For other users the script still writes the block, but it does not read back as the same users.
- Layout.ParseReadGroup: requires well-formed users: no space and no line break in the name, a name not starting with `#`, and no line break in the hash. For other users the script still writes the block, but it does not read back as the same users.
- Layout.ParseAuthLines: requires well-formed users: no space and no line break in the name, a name not starting with `#`, and no line break in the hash. For other users the script still writes the block, but it does not read back as the same users.
- Layout.ParseAuthBlock: requires well-formed users: no space and no line break in the name, a name not starting with `#`, and no line break in the hash. For other users the script still writes the block, but it does not read back as the same users.
- Layout.AuthLinesNoNewlines: requires user names and hashes without line breaks. A line break inside a value would split its credential line in two.
- Layout.AuthComments: requires well-formed users: no space and no line break in the name, a name not starting with `#`, and no line break in the hash. For other users the script still writes the block, but it does not read back as the same users.
- ShareLayout.ShareText: requires the share name, the path, and every registered user name and hash to be free of line breaks. Spaces and a leading `#` are allowed. With a line break inside a value, `indent` would prefix the continuation line too. The statements about lines (`ShareLayout.ShareMatcherLines` and those next to it) hold without this condition.
- ShareLayout.ShareBlockLines: requires the share name, the path, and every registered user name and hash to be free of line breaks. Spaces and a leading `#` are allowed. With a line break inside a value, `indent` would prefix the continuation line too. The statements about lines (`ShareLayout.ShareMatcherLines` and those next to it) hold without this condition.
- ShareLayout.RouteText: requires the share name, the path, and every registered user name and hash to be free of line breaks. Spaces and a leading `#` are allowed. With a line break inside a value, `indent` would prefix the continuation line too. The statements about lines (`ShareLayout.ShareMatcherLines` and those next to it) hold without this condition.
- ShareLayout.RestrictionsText: requires every registered user name and hash to be free of line breaks; spaces and a leading `#` are allowed. With a line break inside a value, `indent` would prefix the continuation line too.
- ShareLayout.ProhibitionsText: requires the names of the read-only users to be free of line breaks; spaces and a leading `#` are allowed. With a line break inside a value, `indent` would prefix the continuation line too.
- ShareLayout.ProhibitIndent: requires the user name to be free of line breaks. With a line break inside a value, `indent` would prefix the continuation line too.
- ShareLayout.RewriteText: requires the route to be free of line breaks. With a line break inside a value, `indent` would prefix the continuation line too.
- ShareLayout.WebdavText: requires the root and the route to be free of line breaks. With a line break inside a value, `indent` would prefix the continuation line too.
