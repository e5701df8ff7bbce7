/**
 * The lines of one share's part of the Caddyfile. Which kind of line a line
 * is can be told from one column: directives of the site block start in
 * column 4, those of a route or browse block in column 8, so the character
 * there names the directive whatever user, share name or path is substituted.
 */
module ShareLayout {
  import opened Wrappers
  import opened ConfigModel
  import opened Text
  import opened AccessLists
  import opened Caddyfile
  import opened Layout

  const MatcherPrefix := "        @prohibitWrite_"

  /** The line that opens the request matcher of a read-only user. */
  function MatcherLine(username: string): string {
    MatcherPrefix + username + " {"
  }

  const Indent2 := "        "

  /** The lines of one write prohibition: the template's lines indented by two levels. */
  function ProhibitLines(username: string): seq<string> {
    PrefixEachLine(ProhibitTemplateLines(username), Indent2)
  }

  function ProhibitionLines(read: seq<User>): seq<string> {
    if read == [] then []
    else ProhibitionLines(read[..|read| - 1]) + ProhibitLines(read[|read| - 1].username)
  }

  /** The matcher lines of the given read-only users, in order. */
  function MatcherLines(read: seq<User>): (r: seq<string>)
    ensures |r| == |read|
  {
    seq(|read|, i requires 0 <= i < |read| => MatcherLine(read[i].username))
  }

  function HeadLines(v: ValidShare): seq<string> {
    [ "    # Share: " + v.name,
      "    # Access control: " + (if v.access.Some? then "enabled" else "disabled") + ", Real path: " + v.path,
      "    route " + Route(v.name) + "* {" ]
  }

  function AuthTextLines(v: ValidShare, users: seq<User>): seq<string> {
    if v.access.Some? then AuthLines(ResolveAccess(v.access.value, users)) else []
  }

  function RestrictionLines(v: ValidShare, users: seq<User>): seq<string> {
    if v.access.Some? then ProhibitionLines(ResolveAccess(v.access.value, users).read) else []
  }

  function RewriteLines(route: string): seq<string> {
    PrefixEachLine(["rewrite " + route + " " + route + "/"], Indent2)
  }

  function WebdavLines(root: string, route: string): seq<string> {
    PrefixEachLine(WebdavTemplateLines(root, route), Indent2)
  }

  const RouteCloseLines := ["    }", ""]

  function RouteLines(v: ValidShare, users: seq<User>): seq<string> {
    HeadLines(v) + AuthTextLines(v, users) + RestrictionLines(v, users)
    + RewriteLines(Route(v.name)) + WebdavLines(Root(v.path), Route(v.name)) + RouteCloseLines
  }

  function BrowseOpenLine(name: string): string {
    "    handle_path /browse/" + name + "* {"
  }

  function BrowseTailLines(root: string): seq<string> {
    ["        root * " + root, "        file_server browse", "    }", ""]
  }

  function BrowseLines(v: ValidShare, users: seq<User>): seq<string> {
    [BrowseOpenLine(v.name)] + AuthTextLines(v, users) + BrowseTailLines(Root(v.path))
  }

  /** The lines of everything one share adds to the file. */
  function ShareLines(v: ValidShare, users: seq<User>, enableWeb: bool): seq<string> {
    RouteLines(v, users) + (if enableWeb then BrowseLines(v, users) else [])
  }

  /** Names, paths, user names and hashes without line breaks, which keep the lines apart. */
  predicate SingleLineShare(v: ValidShare, users: seq<User>) {
    SingleLine(v.name) && SingleLine(v.path) && SingleLineUsers(users)
  }

  // ---- The text is the join of the lines ----

  lemma EightSpaces()
    ensures Spaces(8) == "        "
  {
    assert Spaces(4) == "    ";
  }

  /** A line with a character that is not white space gets the prefix. */
  lemma PrefixNonBlank(line: string, prefix: string, k: nat)
    requires k < |line| && !IsSpace(line[k])
    ensures PrefixLine(line, prefix) == prefix + line
  {
  }

  lemma SingleLineAppend(a: string, b: string)
    requires SingleLine(a) && SingleLine(b)
    ensures SingleLine(a + b)
  {
    assert forall i :: 0 <= i < |b| ==> (a + b)[|a| + i] == b[i];
  }

  lemma ProhibitTemplateSingleLines(username: string)
    requires SingleLine(username)
    ensures forall i :: 0 <= i < |ProhibitTemplateLines(username)| ==> SingleLine(ProhibitTemplateLines(username)[i])
  {
    PrintableSingleLine("# Limit to read access (");
    PrintableSingleLine(")");
    PrintableSingleLine("@prohibitWrite_");
    PrintableSingleLine(" {");
    PrintableSingleLine("    vars http.auth.user.id ");
    PrintableSingleLine("handle @prohibitWrite_");
    SingleLineAppend("# Limit to read access (", username);
    SingleLineAppend("# Limit to read access (" + username, ")");
    SingleLineAppend("@prohibitWrite_", username);
    SingleLineAppend("@prohibitWrite_" + username, " {");
    SingleLineAppend("    vars http.auth.user.id ", username);
    SingleLineAppend("handle @prohibitWrite_", username);
    SingleLineAppend("handle @prohibitWrite_" + username, " {");
    ProhibitTemplateConstants();
    var t := ProhibitTemplateLines(username);
    assert SingleLine(t[0]) && SingleLine(t[1]) && SingleLine(t[2]);
    assert SingleLine(t[3]) && SingleLine(t[4]) && SingleLine(t[5]);
    assert SingleLine(t[6]) && SingleLine(t[7]) && SingleLine(t[8]);
  }

  lemma ProhibitTemplateConstants()
    ensures SingleLine("    not method GET HEAD OPTIONS PROPFIND")
    ensures SingleLine("    respond \"Forbidden\" 403")
    ensures SingleLine("}") && SingleLine("")
  {
    PrintableSingleLine("    not method GET HEAD OPTIONS PROPFIND");
    PrintableSingleLine("    respond \"Forbidden\" 403");
  }

  /** Indenting one write prohibition gives its lines. */
  lemma ProhibitIndent(username: string)
    requires SingleLine(username)
    ensures Indent(ProhibitTemplate(username), 2) == Unlines(ProhibitLines(username))
  {
    ProhibitTemplateSingleLines(username);
    EightSpaces();
    PrefixLinesUnlines(ProhibitTemplateLines(username), Indent2);
  }

  /** The write prohibitions are the join of their lines. */
  lemma {:induction false} ProhibitionsText(read: seq<User>)
    requires forall u :: u in read ==> SingleLine(u.username)
    ensures Prohibitions(read) == Unlines(ProhibitionLines(read))
  {
    if read != [] {
      var init, last := read[..|read| - 1], read[|read| - 1];
      assert last in read;
      assert forall u :: u in init ==> u in read;
      ProhibitionsText(init);
      ProhibitIndent(last.username);
      UnlinesAppend(ProhibitionLines(init), ProhibitLines(last.username));
    }
  }

  lemma HeadText(v: ValidShare)
    ensures ShareHead(v) == Unlines(HeadLines(v))
  {
    var h := HeadLines(v);
    var x := if v.access.Some? then "enabled" else "disabled";
    var p1 := "    # Share: " + v.name + "\n";
    var p2 := p1 + "    # Access control: " + x + ", Real path: " + v.path;
    var p3 := p2 + "\n" + "    route " + Route(v.name);
    Unlines3(h[0], h[1], h[2]);
    assert p1 + h[1] == p2;
    assert p2 + "\n" + h[2] == p3 + "* {";
  }

  lemma Unlines3(a: string, b: string, c: string)
    ensures Unlines([a, b, c]) == a + "\n" + b + "\n" + c + "\n"
  {
    UnlinesOne(a);
    UnlinesOne(b);
    UnlinesOne(c);
    assert [a, b, c] == [a] + [b] + [c];
    UnlinesAppend([a] + [b], [c]);
    UnlinesAppend([a], [b]);
    Assoc(a + "\n", b, "\n");
    Assoc(a + "\n" + b + "\n", c, "\n");
  }

  lemma UnlinesOne(a: string)
    ensures Unlines([a]) == a + "\n"
  {
    assert [a][1..] == [];
  }

  /** The lines of the resolved grants of a share are made of the registered users' names and hashes. */
  lemma GrantsSingleLine(v: ValidShare, users: seq<User>)
    requires v.access.Some? && SingleLineUsers(users)
    ensures SingleLineUsers(ResolveAccess(v.access.value, users).read)
    ensures SingleLineUsers(ResolveAccess(v.access.value, users).readWrite)
  {
    forall u | u in ResolveAccess(v.access.value, users).read
      ensures u in users
    {
      ReadGrantMembers(v.access.value, users, u);
    }
    forall u | u in ResolveAccess(v.access.value, users).readWrite
      ensures u in users
    {
      ReadWriteGrantMembers(v.access.value, users, u);
    }
  }

  lemma AuthTextText(v: ValidShare, users: seq<User>)
    ensures AuthText(v, users) == Unlines(AuthTextLines(v, users))
  {
    if v.access.Some? {
      AuthBlockLines(ResolveAccess(v.access.value, users));
    }
  }

  lemma RestrictionsText(v: ValidShare, users: seq<User>)
    requires SingleLineUsers(users)
    ensures Restrictions(v, users) == Unlines(RestrictionLines(v, users))
  {
    if v.access.Some? {
      GrantsSingleLine(v, users);
      ProhibitionsText(ResolveAccess(v.access.value, users).read);
    }
  }

  lemma RewriteText(route: string)
    requires SingleLine(route)
    ensures Indent(RewriteLine(route), 2) == Unlines(RewriteLines(route))
  {
    SingleLineAppend("rewrite ", route);
    SingleLineAppend("rewrite " + route, " ");
    SingleLineAppend("rewrite " + route + " ", route);
    SingleLineAppend("rewrite " + route + " " + route, "/");
    EightSpaces();
    PrefixLinesUnlines(["rewrite " + route + " " + route + "/"], Indent2);
  }

  lemma WebdavText(root: string, route: string)
    requires SingleLine(root) && SingleLine(route)
    ensures Indent(WebdavTemplate(root, route), 2) == Unlines(WebdavLines(root, route))
  {
    SingleLineAppend("    root ", root);
    SingleLineAppend("    prefix ", route);
    EightSpaces();
    PrefixLinesUnlines(WebdavTemplateLines(root, route), Indent2);
  }

  /** The route block is the join of its lines. */
  lemma RouteText(v: ValidShare, users: seq<User>)
    requires SingleLineShare(v, users)
    ensures RouteBlock(v, users) == Unlines(RouteLines(v, users))
  {
    var route, root := Route(v.name), Root(v.path);
    SingleLineAppend("/share/", v.name);
    SingleLineAppend("/filesystem", v.path);
    HeadText(v);
    AuthTextText(v, users);
    RestrictionsText(v, users);
    RewriteText(route);
    WebdavText(root, route);
    assert Unlines(RouteCloseLines) == "    }\n\n" by {
      assert RouteCloseLines[1..] == [""];
    }
    var l1 := HeadLines(v) + AuthTextLines(v, users);
    var l2 := l1 + RestrictionLines(v, users);
    var l3 := l2 + RewriteLines(route);
    var l4 := l3 + WebdavLines(root, route);
    UnlinesAppend(HeadLines(v), AuthTextLines(v, users));
    UnlinesAppend(l1, RestrictionLines(v, users));
    UnlinesAppend(l2, RewriteLines(route));
    UnlinesAppend(l3, WebdavLines(root, route));
    UnlinesAppend(l4, RouteCloseLines);
  }

  lemma BrowseTailText(root: string)
    ensures Unlines(BrowseTailLines(root)) ==
      "        root * " + root + "\n" + "        file_server browse\n" + "    }\n\n"
  {
    var t := BrowseTailLines(root);
    assert t == [t[0], t[1], t[2]] + [""];
    Unlines3(t[0], t[1], t[2]);
    UnlinesOne("");
    UnlinesAppend([t[0], t[1], t[2]], [""]);
  }

  /** The browse block is the join of its lines. */
  lemma BrowseText(v: ValidShare, users: seq<User>)
    ensures Unlines(BrowseLines(v, users)) ==
      ("    handle_path /browse/" + v.name + "* {\n") + AuthText(v, users)
      + ("        root * " + Root(v.path) + "\n" + "        file_server browse\n" + "    }\n\n")
  {
    var open := BrowseOpenLine(v.name);
    UnlinesOne(open);
    AuthTextText(v, users);
    BrowseTailText(Root(v.path));
    UnlinesAppend([open], AuthTextLines(v, users));
    UnlinesAppend([open] + AuthTextLines(v, users), BrowseTailLines(Root(v.path)));
  }

  /** Everything one share adds to the file is the join of its lines. */
  lemma ShareText(v: ValidShare, users: seq<User>, enableWeb: bool)
    requires SingleLineShare(v, users)
    ensures ShareBlock(v, users, enableWeb) == Unlines(ShareLines(v, users, enableWeb))
  {
    RouteText(v, users);
    if enableWeb {
      BrowseText(v, users);
      UnlinesAppend(RouteLines(v, users), BrowseLines(v, users));
      var rb := RouteBlock(v, users);
      var h := "    handle_path /browse/" + v.name + "* {\n";
      var a := AuthText(v, users);
      var r := "        root * " + Root(v.path) + "\n";
      calc {
        Unlines(ShareLines(v, users, enableWeb));
        rb + (h + a + (r + "        file_server browse\n" + "    }\n\n"));
        { Assoc(rb, h + a, r + "        file_server browse\n" + "    }\n\n"); Assoc(rb, h, a); }
        rb + h + a + (r + "        file_server browse\n" + "    }\n\n");
        { var x := rb + h + a;
          Assoc(x, r + "        file_server browse\n", "    }\n\n");
          Assoc(x, r, "        file_server browse\n");
          Assoc(x, "        root * " + Root(v.path), "\n");
          Assoc(x, "        root * ", Root(v.path));
          Assoc(rb, "    handle_path /browse/" + v.name, "* {\n");
          Assoc(rb, "    handle_path /browse/", v.name); }
        rb + "    handle_path /browse/" + v.name + "* {\n" + a
        + "        root * " + Root(v.path) + "\n" + "        file_server browse\n" + "    }\n\n";
        ShareBlock(v, users, enableWeb);
      }
    } else {
      assert ShareLines(v, users, enableWeb) == RouteLines(v, users);
    }
  }

  // ---- Telling lines apart by one column ----

  /** `line` has the character `c` in column `k`. */
  predicate HasAt(line: string, k: nat, c: char) {
    k < |line| && line[k] == c
  }

  /** The lines among `lines` that have `c` in column `k`, in order. */
  function LinesWith(lines: seq<string>, k: nat, c: char): seq<string> {
    if lines == [] then []
    else (if HasAt(lines[0], k, c) then [lines[0]] else []) + LinesWith(lines[1..], k, c)
  }

  /**
   * The columns that name a directive: `@` in column 8 opens a request
   * matcher, `b` in column 8 opens a basicauth block, `h` in column 4 opens
   * a browse block.
   */
  predicate Marker(k: nat, c: char) {
    (k == 8 && (c == '@' || c == 'b')) || (k == 4 && c == 'h')
  }

  lemma {:induction false} LinesWithAppend(a: seq<string>, b: seq<string>, k: nat, c: char)
    ensures LinesWith(a + b, k, c) == LinesWith(a, k, c) + LinesWith(b, k, c)
  {
    if a == [] {
      assert a + b == b;
    } else {
      var head := if HasAt(a[0], k, c) then [a[0]] else [];
      assert (a + b)[0] == a[0] && (a + b)[1..] == a[1..] + b;
      calc {
        LinesWith(a + b, k, c);
        head + LinesWith(a[1..] + b, k, c);
        { LinesWithAppend(a[1..], b, k, c); }
        head + (LinesWith(a[1..], k, c) + LinesWith(b, k, c));
        LinesWith(a, k, c) + LinesWith(b, k, c);
      }
    }
  }

  /** Lines with nothing marked add nothing to the selection. */
  lemma LinesWithAppendUnmarked(a: seq<string>, b: seq<string>, k: nat, c: char)
    requires LinesWith(b, k, c) == []
    ensures LinesWith(a + b, k, c) == LinesWith(a, k, c)
  {
    LinesWithAppend(a, b, k, c);
    assert LinesWith(a, k, c) + [] == LinesWith(a, k, c);
  }

  /** A line is selected exactly when it is one of the lines and has `c` in column `k`. */
  lemma {:induction false} LinesWithMembers(lines: seq<string>, k: nat, c: char, line: string)
    ensures line in LinesWith(lines, k, c) <==> line in lines && HasAt(line, k, c)
  {
    if lines != [] {
      LinesWithMembers(lines[1..], k, c, line);
      assert lines == [lines[0]] + lines[1..];
    }
  }

  lemma {:induction false} LinesWithNone(lines: seq<string>, k: nat, c: char)
    requires forall i :: 0 <= i < |lines| ==> !HasAt(lines[i], k, c)
    ensures LinesWith(lines, k, c) == []
  {
    if lines != [] {
      LinesWithNone(lines[1..], k, c);
    }
  }

  lemma LinesWithOne(lines: seq<string>, j: nat, k: nat, c: char)
    requires j < |lines| && HasAt(lines[j], k, c)
    requires forall i :: 0 <= i < |lines| && i != j ==> !HasAt(lines[i], k, c)
    ensures LinesWith(lines, k, c) == [lines[j]]
  {
    assert lines == lines[..j] + [lines[j]] + lines[j + 1..];
    LinesWithAppend(lines[..j] + [lines[j]], lines[j + 1..], k, c);
    LinesWithAppend(lines[..j], [lines[j]], k, c);
    LinesWithNone(lines[..j], k, c);
    LinesWithNone(lines[j + 1..], k, c);
  }

  lemma HeadColumns(v: ValidShare, k: nat, c: char)
    requires Marker(k, c)
    ensures LinesWith(HeadLines(v), k, c) == []
  {
    var h := HeadLines(v);
    assert h[0][4] == '#' && h[0][8] == 'a';
    assert h[1][4] == '#' && h[1][8] == 'c';
    assert h[2][4] == 'r' && h[2][8] == 'e';
    LinesWithNone(h, k, c);
  }

  /** Comment and credential lines are indented by twelve spaces. */
  lemma GroupColumns(comment: string, users: seq<User>, k: nat, c: char)
    requires comment == ReadWriteCommentLine || comment == ReadCommentLine
    requires Marker(k, c)
    ensures LinesWith(GroupLines(comment, users), k, c) == []
  {
    var lines := GroupLines(comment, users);
    forall i | 0 <= i < |lines|
      ensures !HasAt(lines[i], k, c)
    {
      if |users| > 0 && i == 0 {
        assert lines[i] == comment;
      } else {
        var u := users[if |users| > 0 then i - 1 else i];
        assert lines[i] == CredentialLine(u);
        assert lines[i][4] == ' ' && lines[i][8] == ' ';
      }
    }
    LinesWithNone(lines, k, c);
  }

  lemma LinesWithSingle(line: string, k: nat, c: char)
    ensures LinesWith([line], k, c) == if HasAt(line, k, c) then [line] else []
  {
    assert [line][1..] == [];
  }

  /** The line opening a basicauth block is marked `b` in column 8 and nowhere else. */
  lemma OpenLineColumns(k: nat, c: char)
    requires Marker(k, c)
    ensures HasAt(BasicAuthOpenLine, k, c) <==> k == 8 && c == 'b'
  {
    assert BasicAuthOpenLine[4] == ' ' && BasicAuthOpenLine[8] == 'b';
  }

  /** A basicauth block has one line marked `b` in column 8, its first, and nothing else marked. */
  lemma AuthColumns(g: Grants, k: nat, c: char)
    requires Marker(k, c)
    ensures LinesWith(AuthLines(g), k, c) == if k == 8 && c == 'b' then [BasicAuthOpenLine] else []
  {
    var rw := GroupLines(ReadWriteCommentLine, g.readWrite);
    var rd := GroupLines(ReadCommentLine, g.read);
    var closing := [BasicAuthCloseLine, ""];
    GroupColumns(ReadWriteCommentLine, g.readWrite, k, c);
    GroupColumns(ReadCommentLine, g.read, k, c);
    LinesWithNone(closing, k, c);
    LinesWithSingle(BasicAuthOpenLine, k, c);
    OpenLineColumns(k, c);
    LinesWithAppendUnmarked([BasicAuthOpenLine] + rw + rd, closing, k, c);
    LinesWithAppendUnmarked([BasicAuthOpenLine] + rw, rd, k, c);
    LinesWithAppendUnmarked([BasicAuthOpenLine], rw, k, c);
  }

  lemma AuthTextColumns(v: ValidShare, users: seq<User>, k: nat, c: char)
    requires Marker(k, c)
    ensures LinesWith(AuthTextLines(v, users), k, c) ==
      if v.access.Some? && k == 8 && c == 'b' then [BasicAuthOpenLine] else []
  {
    if v.access.Some? {
      AuthColumns(ResolveAccess(v.access.value, users), k, c);
    }
  }

  /** Every template line but the last empty one gets the two-level indentation. */
  lemma ProhibitLinesShape(username: string)
    ensures var t, p := ProhibitTemplateLines(username), ProhibitLines(username);
      && |p| == 9 && p[8] == ""
      && forall i :: 0 <= i < 8 ==> p[i] == Indent2 + t[i]
  {
    var t := ProhibitTemplateLines(username);
    PrefixNonBlank(t[0], Indent2, 0);
    PrefixNonBlank(t[1], Indent2, 0);
    PrefixNonBlank(t[2], Indent2, 4);
    PrefixNonBlank(t[3], Indent2, 4);
    PrefixNonBlank(t[4], Indent2, 0);
    PrefixNonBlank(t[5], Indent2, 0);
    PrefixNonBlank(t[6], Indent2, 4);
    PrefixNonBlank(t[7], Indent2, 0);
  }

  lemma MatcherLineIndented(username: string)
    ensures Indent2 + ("@prohibitWrite_" + username + " {") == MatcherLine(username)
  {
    Assoc(Indent2, "@prohibitWrite_" + username, " {");
    Assoc(Indent2, "@prohibitWrite_", username);
  }

  /** One write prohibition has exactly one marked line: its matcher, marked `@` in column 8. */
  lemma ProhibitColumns(username: string, k: nat, c: char)
    requires Marker(k, c)
    ensures LinesWith(ProhibitLines(username), k, c) == if k == 8 && c == '@' then [MatcherLine(username)] else []
  {
    var t, p := ProhibitTemplateLines(username), ProhibitLines(username);
    ProhibitLinesShape(username);
    assert t[0][0] == '#' && t[1][0] == '@' && t[2][0] == ' ' && t[3][0] == ' ';
    assert t[4][0] == '}' && t[5][0] == 'h' && t[6][0] == ' ' && t[7][0] == '}';
    forall i | 0 <= i < 8
      ensures p[i][4] == ' ' && p[i][8] == t[i][0]
    {
    }
    if k == 8 && c == '@' {
      LinesWithOne(p, 1, k, c);
      MatcherLineIndented(username);
    } else {
      LinesWithNone(p, k, c);
    }
  }

  /** The write prohibitions of the read-only users have their matcher lines, in order, and nothing else marked. */
  lemma {:induction false} ProhibitionColumns(read: seq<User>, k: nat, c: char)
    requires Marker(k, c)
    ensures LinesWith(ProhibitionLines(read), k, c) == if k == 8 && c == '@' then MatcherLines(read) else []
  {
    if read != [] {
      var init, last := read[..|read| - 1], read[|read| - 1];
      ProhibitionColumns(init, k, c);
      ProhibitColumns(last.username, k, c);
      LinesWithAppend(ProhibitionLines(init), ProhibitLines(last.username), k, c);
      if k == 8 && c == '@' {
        MatcherLinesStep(read);
      } else {
        assert LinesWith(ProhibitionLines(read), k, c) == [] + [];
      }
    }
  }

  /** One more read-only user, one more matcher line. */
  lemma MatcherLinesStep(read: seq<User>)
    requires read != []
    ensures MatcherLines(read) == MatcherLines(read[..|read| - 1]) + [MatcherLine(read[|read| - 1].username)]
  {
  }

  lemma RewriteColumns(route: string, k: nat, c: char)
    requires Marker(k, c)
    ensures LinesWith(RewriteLines(route), k, c) == []
  {
    var line := "rewrite " + route + " " + route + "/";
    PrefixNonBlank(line, Indent2, 0);
    var p := RewriteLines(route);
    assert p[0][4] == ' ' && p[0][8] == 'r';
    LinesWithNone(p, k, c);
  }

  lemma WebdavColumns(root: string, route: string, k: nat, c: char)
    requires Marker(k, c)
    ensures LinesWith(WebdavLines(root, route), k, c) == []
  {
    var t, p := WebdavTemplateLines(root, route), WebdavLines(root, route);
    PrefixNonBlank(t[1], Indent2, 0);
    PrefixNonBlank(t[2], Indent2, 0);
    PrefixNonBlank(t[3], Indent2, 4);
    PrefixNonBlank(t[4], Indent2, 4);
    PrefixNonBlank(t[5], Indent2, 0);
    assert p[0] == "";
    assert p[1][4] == ' ' && p[1][8] == '#';
    assert p[2][4] == ' ' && p[2][8] == 'w';
    assert p[3][4] == ' ' && p[3][8] == ' ';
    assert p[4][4] == ' ' && p[4][8] == ' ';
    assert p[5][4] == ' ' && p[5][8] == '}';
    LinesWithNone(p, k, c);
  }

  lemma BrowseTailColumns(root: string, k: nat, c: char)
    requires Marker(k, c)
    ensures LinesWith(BrowseTailLines(root), k, c) == []
    ensures LinesWith(RouteCloseLines, k, c) == []
  {
    var t := BrowseTailLines(root);
    assert t[0][4] == ' ' && t[0][8] == 'r';
    assert t[1][4] == ' ' && t[1][8] == 'f';
    assert t[2][4] == '}' && |t[2]| == 5 && t[3] == "";
    LinesWithNone(t, k, c);
    LinesWithNone(RouteCloseLines, k, c);
  }

  /** What is marked in a route block: its basicauth line, if any, and the matcher of every read-only user. */
  lemma RouteColumns(v: ValidShare, users: seq<User>, k: nat, c: char)
    requires Marker(k, c)
    ensures LinesWith(RouteLines(v, users), k, c) ==
      LinesWith(AuthTextLines(v, users), k, c) + LinesWith(RestrictionLines(v, users), k, c)
  {
    var route, root := Route(v.name), Root(v.path);
    var l1 := HeadLines(v) + AuthTextLines(v, users);
    var l2 := l1 + RestrictionLines(v, users);
    var l3 := l2 + RewriteLines(route);
    var l4 := l3 + WebdavLines(root, route);
    HeadColumns(v, k, c);
    RewriteColumns(route, k, c);
    WebdavColumns(root, route, k, c);
    BrowseTailColumns(root, k, c);
    LinesWithAppendUnmarked(l4, RouteCloseLines, k, c);
    LinesWithAppendUnmarked(l3, WebdavLines(root, route), k, c);
    LinesWithAppendUnmarked(l2, RewriteLines(route), k, c);
    LinesWithAppend(l1, RestrictionLines(v, users), k, c);
    LinesWithAppend(HeadLines(v), AuthTextLines(v, users), k, c);
    assert LinesWith(l1, k, c) == LinesWith(AuthTextLines(v, users), k, c);
  }

  /** What is marked in a browse block: its opening line, marked `h` in column 4, and its basicauth line, if any. */
  lemma BrowseColumns(v: ValidShare, users: seq<User>, k: nat, c: char)
    requires Marker(k, c)
    ensures LinesWith(BrowseLines(v, users), k, c) ==
      (if k == 4 then [BrowseOpenLine(v.name)] else []) + LinesWith(AuthTextLines(v, users), k, c)
  {
    var open := BrowseOpenLine(v.name);
    assert open[4] == 'h' && open[8] == 'l';
    LinesWithSingle(open, k, c);
    BrowseTailColumns(Root(v.path), k, c);
    LinesWithAppend([open] + AuthTextLines(v, users), BrowseTailLines(Root(v.path)), k, c);
    LinesWithAppend([open], AuthTextLines(v, users), k, c);
  }

  /** Every marked line of a share's part of the file, in order. */
  lemma ShareColumns(v: ValidShare, users: seq<User>, enableWeb: bool, k: nat, c: char)
    requires Marker(k, c)
    ensures LinesWith(ShareLines(v, users, enableWeb), k, c) ==
      LinesWith(AuthTextLines(v, users), k, c) + LinesWith(RestrictionLines(v, users), k, c)
      + (if enableWeb then (if k == 4 then [BrowseOpenLine(v.name)] else []) + LinesWith(AuthTextLines(v, users), k, c) else [])
  {
    RouteColumns(v, users, k, c);
    if enableWeb {
      BrowseColumns(v, users, k, c);
      LinesWithAppend(RouteLines(v, users), BrowseLines(v, users), k, c);
    } else {
      assert ShareLines(v, users, enableWeb) == RouteLines(v, users);
    }
  }

  lemma RestrictionColumns(v: ValidShare, users: seq<User>, k: nat, c: char)
    requires Marker(k, c)
    ensures LinesWith(RestrictionLines(v, users), k, c) ==
      if v.access.Some? && k == 8 && c == '@' then MatcherLines(ResolveAccess(v.access.value, users).read) else []
  {
    if v.access.Some? {
      ProhibitionColumns(ResolveAccess(v.access.value, users).read, k, c);
    }
  }

  // ---- What a share's lines contain ----

  /**
   * A share with an access table gets one basicauth block in its route and,
   * with the web interface on, the same block again in its browse block; a
   * share without one gets none.
   */
  lemma ShareBasicAuthLines(v: ValidShare, users: seq<User>, enableWeb: bool)
    ensures LinesWith(ShareLines(v, users, enableWeb), 8, 'b') ==
      if v.access.None? then []
      else if enableWeb then [BasicAuthOpenLine, BasicAuthOpenLine]
      else [BasicAuthOpenLine]
  {
    ShareColumns(v, users, enableWeb, 8, 'b');
    AuthTextColumns(v, users, 8, 'b');
    RestrictionColumns(v, users, 8, 'b');
  }

  /**
   * The request matchers of a share are those of its read-only users, in the
   * order of the registered users; a share without an access table has none.
   */
  lemma ShareMatcherLines(v: ValidShare, users: seq<User>, enableWeb: bool)
    ensures LinesWith(ShareLines(v, users, enableWeb), 8, '@') ==
      if v.access.Some? then MatcherLines(ResolveAccess(v.access.value, users).read) else []
  {
    ShareColumns(v, users, enableWeb, 8, '@');
    AuthTextColumns(v, users, 8, '@');
    RestrictionColumns(v, users, 8, '@');
  }

  /** A share has a browse block exactly when the web interface is on. */
  lemma ShareBrowseLines(v: ValidShare, users: seq<User>, enableWeb: bool)
    ensures LinesWith(ShareLines(v, users, enableWeb), 4, 'h') ==
      if enableWeb then [BrowseOpenLine(v.name)] else []
  {
    ShareColumns(v, users, enableWeb, 4, 'h');
    AuthTextColumns(v, users, 4, 'h');
    RestrictionColumns(v, users, 4, 'h');
  }

  /** Different user names give different matcher lines. */
  lemma MatcherLineInjective(a: string, b: string)
    requires MatcherLine(a) == MatcherLine(b)
    ensures a == b
  {
    var la, lb := MatcherLine(a), MatcherLine(b);
    assert a == la[|MatcherPrefix|..|la| - 2];
    assert b == lb[|MatcherPrefix|..|lb| - 2];
  }

  /**
   * A registered user gets a request matcher in a share with an access table
   * exactly when the user is one of its read-only users.
   */
  lemma MatcherExactlyForReadUsers(v: ValidShare, users: seq<User>, enableWeb: bool, u: User)
    requires v.access.Some? && u in users
    ensures MatcherLine(u.username) in ShareLines(v, users, enableWeb) <==>
      u in ResolveAccess(v.access.value, users).read
  {
    MatcherLineMarked(u.username);
    ShareMatcherLines(v, users, enableWeb);
    LinesWithMembers(ShareLines(v, users, enableWeb), 8, '@', MatcherLine(u.username));
    MatcherLinesMembers(v.access.value, users, u);
  }

  /** The matcher line in column 8 is marked `@`. */
  lemma MatcherLineMarked(username: string)
    ensures HasAt(MatcherLine(username), 8, '@')
  {
    assert MatcherLine(username)[8] == MatcherPrefix[8];
  }

  /** Among the matcher lines of a share's read-only users, a registered user's line is there exactly when the user is. */
  lemma MatcherLinesMembers(access: Access, users: seq<User>, u: User)
    requires u in users
    ensures MatcherLine(u.username) in MatcherLines(ResolveAccess(access, users).read) <==>
      u in ResolveAccess(access, users).read
  {
    var read := ResolveAccess(access, users).read;
    var line := MatcherLine(u.username);
    if line in MatcherLines(read) {
      var i :| 0 <= i < |read| && MatcherLines(read)[i] == line;
      MatcherLineInjective(read[i].username, u.username);
      assert read[i] in read;
      ReadGrantMembers(access, users, read[i]);
      ReadGrantMembers(access, users, u);
    }
    if u in read {
      var i :| 0 <= i < |read| && read[i] == u;
      assert MatcherLines(read)[i] == line;
    }
  }

  /** A read-write user never gets a request matcher, even when also listed as read-only. */
  lemma NoMatcherForReadWriteUsers(v: ValidShare, users: seq<User>, enableWeb: bool, u: User)
    requires v.access.Some? && u in ResolveAccess(v.access.value, users).readWrite
    ensures MatcherLine(u.username) !in ShareLines(v, users, enableWeb)
  {
    ReadWriteGrantMembers(v.access.value, users, u);
    MatcherExactlyForReadUsers(v, users, enableWeb, u);
    if u in ResolveAccess(v.access.value, users).read {
      GrantsDisjoint(v.access.value, users, u, u);
    }
  }

  /** A share without an access table has neither a basicauth block nor any request matcher. */
  lemma OpenShareLines(v: ValidShare, users: seq<User>, enableWeb: bool, username: string)
    requires v.access.None?
    ensures BasicAuthOpenLine !in ShareLines(v, users, enableWeb)
    ensures MatcherLine(username) !in ShareLines(v, users, enableWeb)
  {
    var lines := ShareLines(v, users, enableWeb);
    assert HasAt(BasicAuthOpenLine, 8, 'b');
    MatcherLineMarked(username);
    ShareBasicAuthLines(v, users, enableWeb);
    ShareMatcherLines(v, users, enableWeb);
    LinesWithMembers(lines, 8, 'b', BasicAuthOpenLine);
    LinesWithMembers(lines, 8, '@', MatcherLine(username));
  }

  // ---- Splitting the text gives back the lines ----

  predicate AllSingleLines(lines: seq<string>) {
    forall i :: 0 <= i < |lines| ==> SingleLine(lines[i])
  }

  lemma AllSingleLinesAppend(a: seq<string>, b: seq<string>)
    requires AllSingleLines(a) && AllSingleLines(b)
    ensures AllSingleLines(a + b)
  {
    assert forall i :: 0 <= i < |b| ==> (a + b)[|a| + i] == b[i];
  }

  /** Indenting single lines by a prefix without line breaks keeps them single lines. */
  lemma PrefixEachSingleLines(lines: seq<string>, prefix: string)
    requires AllSingleLines(lines) && SingleLine(prefix)
    ensures AllSingleLines(PrefixEachLine(lines, prefix))
  {
    forall i | 0 <= i < |lines|
      ensures SingleLine(PrefixEachLine(lines, prefix)[i])
    {
      SingleLineAppend(prefix, lines[i]);
    }
  }

  lemma LiteralSingleLines()
    ensures SingleLine(Indent2) && SingleLine(CredentialIndent) && SingleLine(" ")
    ensures SingleLine(BasicAuthOpenLine) && SingleLine(BasicAuthCloseLine)
    ensures SingleLine(ReadWriteCommentLine) && SingleLine(ReadCommentLine)
    ensures AllSingleLines(RouteCloseLines) && SingleLine("")
    ensures SingleLine("        file_server browse") && SingleLine("    }")
  {
    PrintableSingleLine(Indent2);
    PrintableSingleLine(CredentialIndent);
    PrintableSingleLine(BasicAuthOpenLine);
    PrintableSingleLine(BasicAuthCloseLine);
    PrintableSingleLine(ReadWriteCommentLine);
    PrintableSingleLine(ReadCommentLine);
    PrintableSingleLine("        file_server browse");
    PrintableSingleLine("    }");
  }

  lemma HeadSingleLines(v: ValidShare)
    requires SingleLine(v.name) && SingleLine(v.path)
    ensures AllSingleLines(HeadLines(v))
  {
    var x := if v.access.Some? then "enabled" else "disabled";
    PrintableSingleLine(x);
    PrintableSingleLine(", Real path: ");
    PrintableSingleLine("* {");
    PrintableSingleLine("    # Share: ");
    PrintableSingleLine("    # Access control: ");
    PrintableSingleLine("/share/");
    PrintableSingleLine("    route ");
    SingleLineAppend("    # Share: ", v.name);
    SingleLineAppend("    # Access control: ", x);
    SingleLineAppend("    # Access control: " + x, ", Real path: ");
    SingleLineAppend("    # Access control: " + x + ", Real path: ", v.path);
    SingleLineAppend("/share/", v.name);
    SingleLineAppend("    route ", Route(v.name));
    SingleLineAppend("    route " + Route(v.name), "* {");
  }

  lemma CredentialSingleLines(users: seq<User>)
    requires SingleLineUsers(users)
    ensures AllSingleLines(CredentialLines(users))
  {
    LiteralSingleLines();
    forall i | 0 <= i < |users|
      ensures SingleLine(CredentialLines(users)[i])
    {
      var u := users[i];
      assert u in users;
      SingleLineAppend(CredentialIndent, u.username);
      SingleLineAppend(CredentialIndent + u.username, " ");
      SingleLineAppend(CredentialIndent + u.username + " ", u.passwordHash);
    }
  }

  lemma AuthSingleLines(g: Grants)
    requires SingleLineUsers(g.read) && SingleLineUsers(g.readWrite)
    ensures AllSingleLines(AuthLines(g))
  {
    LiteralSingleLines();
    CredentialSingleLines(g.readWrite);
    CredentialSingleLines(g.read);
    var rw := GroupLines(ReadWriteCommentLine, g.readWrite);
    var rd := GroupLines(ReadCommentLine, g.read);
    AllSingleLinesAppend(if |g.readWrite| > 0 then [ReadWriteCommentLine] else [], CredentialLines(g.readWrite));
    AllSingleLinesAppend(if |g.read| > 0 then [ReadCommentLine] else [], CredentialLines(g.read));
    AllSingleLinesAppend([BasicAuthOpenLine], rw);
    AllSingleLinesAppend([BasicAuthOpenLine] + rw, rd);
    AllSingleLinesAppend([BasicAuthOpenLine] + rw + rd, [BasicAuthCloseLine, ""]);
  }

  lemma {:induction false} ProhibitionSingleLines(read: seq<User>)
    requires SingleLineUsers(read)
    ensures AllSingleLines(ProhibitionLines(read))
  {
    if read != [] {
      var init, last := read[..|read| - 1], read[|read| - 1];
      assert last in read;
      assert forall u :: u in init ==> u in read;
      ProhibitionSingleLines(init);
      ProhibitTemplateSingleLines(last.username);
      LiteralSingleLines();
      PrefixEachSingleLines(ProhibitTemplateLines(last.username), Indent2);
      AllSingleLinesAppend(ProhibitionLines(init), ProhibitLines(last.username));
    }
  }

  lemma RouteSingleLines(v: ValidShare, users: seq<User>)
    requires SingleLineShare(v, users)
    ensures AllSingleLines(RouteLines(v, users))
  {
    var route, root := Route(v.name), Root(v.path);
    LiteralSingleLines();
    PrintableSingleLine("/share/");
    PrintableSingleLine("/filesystem");
    PrintableSingleLine("rewrite ");
    PrintableSingleLine(" ");
    PrintableSingleLine("/");
    PrintableSingleLine("    root ");
    PrintableSingleLine("    prefix ");
    PrintableSingleLine("# WebDAV");
    PrintableSingleLine("webdav {");
    SingleLineAppend("/share/", v.name);
    SingleLineAppend("/filesystem", v.path);
    HeadSingleLines(v);
    if v.access.Some? {
      GrantsSingleLine(v, users);
      AuthSingleLines(ResolveAccess(v.access.value, users));
      ProhibitionSingleLines(ResolveAccess(v.access.value, users).read);
    }
    var line := "rewrite " + route + " " + route + "/";
    SingleLineAppend("rewrite ", route);
    SingleLineAppend("rewrite " + route, " ");
    SingleLineAppend("rewrite " + route + " ", route);
    SingleLineAppend("rewrite " + route + " " + route, "/");
    PrefixEachSingleLines([line], Indent2);
    SingleLineAppend("    root ", root);
    SingleLineAppend("    prefix ", route);
    var t := WebdavTemplateLines(root, route);
    assert SingleLine(t[0]) && SingleLine(t[1]) && SingleLine(t[2]) && SingleLine(t[5]);
    PrefixEachSingleLines(t, Indent2);
    var l1 := HeadLines(v) + AuthTextLines(v, users);
    var l2 := l1 + RestrictionLines(v, users);
    var l3 := l2 + RewriteLines(route);
    var l4 := l3 + WebdavLines(root, route);
    AllSingleLinesAppend(HeadLines(v), AuthTextLines(v, users));
    AllSingleLinesAppend(l1, RestrictionLines(v, users));
    AllSingleLinesAppend(l2, RewriteLines(route));
    AllSingleLinesAppend(l3, WebdavLines(root, route));
    AllSingleLinesAppend(l4, RouteCloseLines);
  }

  lemma ShareSingleLines(v: ValidShare, users: seq<User>, enableWeb: bool)
    requires SingleLineShare(v, users)
    ensures AllSingleLines(ShareLines(v, users, enableWeb))
  {
    RouteSingleLines(v, users);
    if enableWeb {
      LiteralSingleLines();
      PrintableSingleLine("    handle_path /browse/");
      PrintableSingleLine("* {");
      PrintableSingleLine("/filesystem");
      PrintableSingleLine("        root * ");
      SingleLineAppend("    handle_path /browse/", v.name);
      SingleLineAppend("    handle_path /browse/" + v.name, "* {");
      SingleLineAppend("/filesystem", v.path);
      SingleLineAppend("        root * ", Root(v.path));
      if v.access.Some? {
        GrantsSingleLine(v, users);
        AuthSingleLines(ResolveAccess(v.access.value, users));
      }
      AllSingleLinesAppend([BrowseOpenLine(v.name)], AuthTextLines(v, users));
      AllSingleLinesAppend([BrowseOpenLine(v.name)] + AuthTextLines(v, users), BrowseTailLines(Root(v.path)));
      AllSingleLinesAppend(RouteLines(v, users), BrowseLines(v, users));
    } else {
      assert ShareLines(v, users, enableWeb) == RouteLines(v, users);
    }
  }

  /**
   * Splitting a share's part of the file at its line ends gives exactly its
   * lines, so what is said above about the lines is said about the text.
   */
  lemma ShareBlockLines(v: ValidShare, users: seq<User>, enableWeb: bool)
    requires SingleLineShare(v, users)
    ensures Lines(ShareBlock(v, users, enableWeb)) == ShareLines(v, users, enableWeb)
  {
    var lines := ShareLines(v, users, enableWeb);
    ShareText(v, users, enableWeb);
    ShareSingleLines(v, users, enableWeb);
    assert NoNewlines(lines) by {
      forall i | 0 <= i < |lines|
        ensures '\n' !in lines[i]
      {
        assert SingleLine(lines[i]);
      }
    }
    LinesUnlines(lines);
  }
}
