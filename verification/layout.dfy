/**
 * The generated text seen as a list of lines: what a basicauth block and a
 * write prohibition consist of, line by line, and how the lines of a
 * basicauth block are read back into the grants they were written from.
 */
module Layout {
  import opened Wrappers
  import opened ConfigModel
  import opened Text
  import opened AccessLists
  import opened Caddyfile

  /** A user whose name and hash are one line each, so that its credential is one line of the file. */
  predicate SingleLineUser(u: User) {
    SingleLine(u.username) && SingleLine(u.passwordHash)
  }

  predicate SingleLineUsers(users: seq<User>) {
    forall u :: u in users ==> SingleLineUser(u)
  }

  /** A user whose credential line can be read back: one line, no space in the name, no `#` in front of it. */
  predicate WellFormedUser(u: User) {
    && SingleLineUser(u)
    && ' ' !in u.username
    && (u.username == [] || u.username[0] != '#')
  }

  predicate WellFormedUsers(users: seq<User>) {
    forall u :: u in users ==> WellFormedUser(u)
  }

  function CredentialLines(users: seq<User>): (r: seq<string>)
    ensures |r| == |users|
  {
    seq(|users|, i requires 0 <= i < |users| => CredentialLine(users[i]))
  }

  /** A group of users under its comment line; no lines at all for an empty group. */
  function GroupLines(comment: string, users: seq<User>): seq<string> {
    (if |users| > 0 then [comment] else []) + CredentialLines(users)
  }

  /** The lines of a basicauth block: read-write users first, then read-only users. */
  function AuthLines(g: Grants): seq<string> {
    [BasicAuthOpenLine] + GroupLines(ReadWriteCommentLine, g.readWrite) + GroupLines(ReadCommentLine, g.read)
    + [BasicAuthCloseLine, ""]
  }

  /** The credential lines are the credentials, one per line. */
  lemma {:induction false} CredentialsLines(users: seq<User>)
    ensures Credentials(users) == Unlines(CredentialLines(users))
  {
    if users != [] {
      var init, last := users[..|users| - 1], users[|users| - 1];
      CredentialsLines(init);
      assert CredentialLines(users) == CredentialLines(init) + [CredentialLine(last)];
      UnlinesAppend(CredentialLines(init), [CredentialLine(last)]);
    }
  }

  lemma GroupLinesText(comment: string, users: seq<User>)
    ensures Unlines(GroupLines(comment, users)) == GroupText(comment + "\n", users)
  {
    CredentialsLines(users);
    UnlinesAppend(if |users| > 0 then [comment] else [], CredentialLines(users));
  }

  lemma AuthFrameText()
    ensures Unlines([BasicAuthOpenLine]) == BasicAuthOpen
    ensures Unlines([BasicAuthCloseLine, ""]) == BasicAuthClose
  {
    assert [BasicAuthCloseLine, ""][1..] == [""];
    assert Unlines([""]) == "\n";
  }

  /** The text of a group: its comment line when the group is not empty, then its credentials. */
  function GroupText(comment: string, users: seq<User>): string {
    (if |users| > 0 then comment else "") + Credentials(users)
  }

  lemma AuthLinesText(g: Grants)
    ensures Unlines(AuthLines(g)) ==
      BasicAuthOpen + GroupText(ReadWriteComment, g.readWrite) + GroupText(ReadComment, g.read) + BasicAuthClose
  {
    var open, closing := [BasicAuthOpenLine], [BasicAuthCloseLine, ""];
    var rwLines := GroupLines(ReadWriteCommentLine, g.readWrite);
    var rLines := GroupLines(ReadCommentLine, g.read);
    calc {
      Unlines(AuthLines(g));
      Unlines(open + rwLines + rLines + closing);
      { UnlinesAppend(open + rwLines + rLines, closing); }
      Unlines(open + rwLines + rLines) + Unlines(closing);
      { UnlinesAppend(open + rwLines, rLines); }
      Unlines(open + rwLines) + Unlines(rLines) + Unlines(closing);
      { UnlinesAppend(open, rwLines); }
      Unlines(open) + Unlines(rwLines) + Unlines(rLines) + Unlines(closing);
      { GroupLinesText(ReadWriteCommentLine, g.readWrite);
        GroupLinesText(ReadCommentLine, g.read);
        AuthFrameText(); }
      BasicAuthOpen + GroupText(ReadWriteComment, g.readWrite) + GroupText(ReadComment, g.read) + BasicAuthClose;
    }
  }

  /** The basicauth block is the text of its lines. */
  lemma AuthBlockLines(g: Grants)
    ensures AuthBlock(g) == Unlines(AuthLines(g))
  {
    AuthLinesText(g);
    var rwComment := if |g.readWrite| > 0 then ReadWriteComment else "";
    var rComment := if |g.read| > 0 then ReadComment else "";
    Assoc(BasicAuthOpen, rwComment, Credentials(g.readWrite));
    Assoc(BasicAuthOpen + GroupText(ReadWriteComment, g.readWrite), rComment, Credentials(g.read));
  }

  /** Reads a credential line back: the name runs up to the first space, the hash is the rest. */
  function ParseCredential(line: string): Option<User> {
    if |line| <= |CredentialIndent| || line[..|CredentialIndent|] != CredentialIndent then None
    else
      var rest := line[|CredentialIndent|..];
      if rest[0] == '#' || ' ' !in rest then None
      else
        var k := IndexOf(rest, ' ');
        Some(User(rest[..k], rest[k + 1..]))
  }

  /** The longest run of credential lines at the front, read back, and the lines after it. */
  function TakeCredentials(lines: seq<string>): (seq<User>, seq<string>) {
    if lines == [] || ParseCredential(lines[0]).None? then ([], lines)
    else
      var r := TakeCredentials(lines[1..]);
      ([ParseCredential(lines[0]).value] + r.0, r.1)
  }

  /** A group: its comment line followed by credential lines, or nothing when the comment line is absent. */
  function ParseGroup(lines: seq<string>, comment: string): (seq<User>, seq<string>) {
    if lines != [] && lines[0] == comment then TakeCredentials(lines[1..]) else ([], lines)
  }

  /** Reads a basicauth block back into its read-write and read-only users. */
  function ParseAuth(lines: seq<string>): Option<Grants> {
    if lines == [] || lines[0] != BasicAuthOpenLine then None
    else
      var rw := ParseGroup(lines[1..], ReadWriteCommentLine);
      var rd := ParseGroup(rw.1, ReadCommentLine);
      if rd.1 == [BasicAuthCloseLine, ""] then Some(Grants(rd.0, rw.0)) else None
  }

  /** A well-formed user's credential line reads back as that user. */
  lemma ParseCredentialLine(u: User)
    requires WellFormedUser(u)
    ensures ParseCredential(CredentialLine(u)) == Some(u)
  {
    var line := CredentialLine(u);
    var rest := u.username + " " + u.passwordHash;
    assert line == CredentialIndent + rest;
    assert line[..|CredentialIndent|] == CredentialIndent;
    assert line[|CredentialIndent|..] == rest;
    assert rest[|u.username|] == ' ';
    IndexOfAfter(u.username, ' ', u.passwordHash);
    assert rest[..|u.username|] == u.username;
    assert rest[|u.username| + 1..] == u.passwordHash;
  }

  /** Comment lines and the closing lines are not credential lines. */
  lemma NotCredentials()
    ensures ParseCredential(ReadWriteCommentLine).None?
    ensures ParseCredential(ReadCommentLine).None?
    ensures ParseCredential(BasicAuthCloseLine).None?
    ensures ParseCredential("").None?
  {
    assert ReadWriteCommentLine[|CredentialIndent|..][0] == '#';
    assert ReadCommentLine[|CredentialIndent|..][0] == '#';
  }

  /** The credential lines of well-formed users read back as those users, up to the first other line. */
  lemma {:induction false} TakeCredentialLines(users: seq<User>, tail: seq<string>)
    requires WellFormedUsers(users)
    requires tail == [] || ParseCredential(tail[0]).None?
    ensures TakeCredentials(CredentialLines(users) + tail) == (users, tail)
  {
    if users == [] {
      assert CredentialLines(users) + tail == tail;
    } else {
      var lines := CredentialLines(users) + tail;
      ParseCredentialLine(users[0]);
      assert lines[0] == CredentialLine(users[0]);
      assert lines[1..] == CredentialLines(users[1..]) + tail;
      TakeCredentialLines(users[1..], tail);
      assert [users[0]] + users[1..] == users;
    }
  }

  /** A group of well-formed users reads back as those users, when the lines after it are neither its comment nor a credential. */
  lemma ParseGroupLines(comment: string, users: seq<User>, tail: seq<string>)
    requires WellFormedUsers(users)
    requires ParseCredential(comment).None?
    requires tail == [] || (ParseCredential(tail[0]).None? && tail[0] != comment)
    ensures ParseGroup(GroupLines(comment, users) + tail, comment) == (users, tail)
  {
    TakeCredentialLines(users, tail);
    if |users| > 0 {
      ParseCredentialLine(users[0]);
      assert users[0] in users;
      assert (GroupLines(comment, users) + tail)[1..] == CredentialLines(users) + tail;
    } else {
      assert GroupLines(comment, users) + tail == tail;
    }
  }

  /** The read-only group and the closing lines read back, and they start with neither a credential nor the read-write comment. */
  lemma ParseReadGroup(g: Grants)
    requires WellFormedUsers(g.read)
    ensures var after := GroupLines(ReadCommentLine, g.read) + [BasicAuthCloseLine, ""];
      && ParseGroup(after, ReadCommentLine) == (g.read, [BasicAuthCloseLine, ""])
      && ParseCredential(after[0]).None?
      && after[0] != ReadWriteCommentLine
  {
    NotCredentials();
    var closing := [BasicAuthCloseLine, ""];
    var after := GroupLines(ReadCommentLine, g.read) + closing;
    ParseGroupLines(ReadCommentLine, g.read, closing);
    assert after[0] == if |g.read| > 0 then ReadCommentLine else BasicAuthCloseLine;
  }

  lemma ParseAuthOf(rwLines: seq<string>, after: seq<string>, g: Grants)
    requires ParseGroup(rwLines + after, ReadWriteCommentLine) == (g.readWrite, after)
    requires ParseGroup(after, ReadCommentLine) == (g.read, [BasicAuthCloseLine, ""])
    ensures ParseAuth([BasicAuthOpenLine] + (rwLines + after)) == Some(g)
  {
    assert ([BasicAuthOpenLine] + (rwLines + after))[1..] == rwLines + after;
  }

  /** Round trip: the lines of a basicauth block give back exactly the grants it was written from. */
  lemma ParseAuthLines(g: Grants)
    requires WellFormedUsers(g.read) && WellFormedUsers(g.readWrite)
    ensures ParseAuth(AuthLines(g)) == Some(g)
  {
    NotCredentials();
    var rwLines := GroupLines(ReadWriteCommentLine, g.readWrite);
    var after := GroupLines(ReadCommentLine, g.read) + [BasicAuthCloseLine, ""];
    ParseReadGroup(g);
    ParseGroupLines(ReadWriteCommentLine, g.readWrite, after);
    var rLines, closing := GroupLines(ReadCommentLine, g.read), [BasicAuthCloseLine, ""];
    calc {
      ParseAuth(AuthLines(g));
      ParseAuth(([BasicAuthOpenLine] + rwLines + rLines) + closing);
      { Assoc([BasicAuthOpenLine] + rwLines, rLines, closing); }
      ParseAuth(([BasicAuthOpenLine] + rwLines) + after);
      { Assoc([BasicAuthOpenLine], rwLines, after); }
      ParseAuth([BasicAuthOpenLine] + (rwLines + after));
      { ParseAuthOf(rwLines, after, g); }
      Some(g);
    }
  }

  /** Read back from the text itself: splitting the block at "\n" and parsing gives back the grants. */
  lemma ParseAuthBlock(g: Grants)
    requires WellFormedUsers(g.read) && WellFormedUsers(g.readWrite)
    ensures ParseAuth(Lines(AuthBlock(g))) == Some(g)
  {
    AuthBlockLines(g);
    AuthLinesNoNewlines(g);
    LinesUnlines(AuthLines(g));
    ParseAuthLines(g);
  }

  lemma AuthLinesNoNewlines(g: Grants)
    requires SingleLineUsers(g.read) && SingleLineUsers(g.readWrite)
    ensures NoNewlines(AuthLines(g))
  {
    forall us: seq<User> | SingleLineUsers(us)
      ensures NoNewlines(CredentialLines(us))
    {
      forall i | 0 <= i < |us|
        ensures '\n' !in CredentialLines(us)[i]
      {
        var u := us[i];
        assert u in us;
        assert SingleLine(u.username) && SingleLine(u.passwordHash);
        assert '\n' !in u.username && '\n' !in u.passwordHash;
      }
    }
  }

  /**
   * Each comment line is in the block exactly when its group of users is not
   * empty; the credential lines are those of the read-write users followed by
   * those of the read-only users.
   */
  lemma AuthComments(g: Grants)
    requires WellFormedUsers(g.read) && WellFormedUsers(g.readWrite)
    ensures ReadWriteCommentLine in AuthLines(g) <==> |g.readWrite| > 0
    ensures ReadCommentLine in AuthLines(g) <==> |g.read| > 0
  {
    NotCredentials();
    CommentNotCredential(ReadWriteCommentLine, g.readWrite);
    CommentNotCredential(ReadWriteCommentLine, g.read);
    CommentNotCredential(ReadCommentLine, g.readWrite);
    CommentNotCredential(ReadCommentLine, g.read);
    FrameLinesDistinct();
    var rw, rd := GroupLines(ReadWriteCommentLine, g.readWrite), GroupLines(ReadCommentLine, g.read);
    assert AuthLines(g) == [BasicAuthOpenLine] + rw + rd + [BasicAuthCloseLine, ""];
  }

  /** The two comments differ from each other and from the lines that open and close the block. */
  lemma FrameLinesDistinct()
    ensures ReadWriteCommentLine != ReadCommentLine
    ensures ReadWriteCommentLine !in [BasicAuthOpenLine, BasicAuthCloseLine, ""]
    ensures ReadCommentLine !in [BasicAuthOpenLine, BasicAuthCloseLine, ""]
  {
    assert |ReadWriteCommentLine| == 31 && |ReadCommentLine| == 25;
    assert |BasicAuthOpenLine| == 19 && |BasicAuthCloseLine| == 9;
  }

  /** A line that does not read as a credential is none of the credential lines. */
  lemma CommentNotCredential(line: string, us: seq<User>)
    requires WellFormedUsers(us)
    requires ParseCredential(line).None?
    ensures line !in CredentialLines(us)
  {
    if line in CredentialLines(us) {
      var i :| 0 <= i < |us| && CredentialLines(us)[i] == line;
      ParseCredentialLine(us[i]);
    }
  }
}
