/**
 * Text helpers: Python's line splitting and whitespace test, the `indent`
 * helper of the entrypoint (a wrapper over `textwrap.indent`), and a view of
 * a text as a list of newline-terminated lines.
 */
module Text {

  /** The characters at which Python's `str.splitlines` ends a line. */
  predicate IsLineBreak(c: char) {
    c == '\n' || c == '\r' || c == '\U{000B}' || c == '\U{000C}' ||
    c == '\U{001C}' || c == '\U{001D}' || c == '\U{001E}' ||
    c == '\U{0085}' || c == '\U{2028}' || c == '\U{2029}'
  }

  /** The characters for which Python's `str.isspace` holds (and that `str.strip` removes). */
  predicate IsSpace(c: char) {
    IsLineBreak(c) || c == '\t' || c == '\U{001F}' || c == ' ' ||
    c == '\U{00A0}' || c == '\U{1680}' || ('\U{2000}' <= c <= '\U{200A}') ||
    c == '\U{202F}' || c == '\U{205F}' || c == '\U{3000}'
  }

  /** `line.strip()` is empty. */
  predicate IsBlank(line: string) {
    forall i :: 0 <= i < |line| ==> IsSpace(line[i])
  }

  /** No character of `s` ends a line. */
  predicate SingleLine(s: string) {
    forall i :: 0 <= i < |s| ==> !IsLineBreak(s[i])
  }

  /**
   * The length of the first line of `s`, its line break included.
   * A "\r\n" pair is taken as two line ends; for `PrefixLines` this changes
   * nothing, since the lone "\n" line is blank and is never prefixed.
   */
  function LineLength(s: string): (k: nat)
    requires s != []
    ensures 0 < k <= |s|
  {
    if IsLineBreak(s[0]) || |s| == 1 then 1 else 1 + LineLength(s[1..])
  }

  /** The first line ends at the first line break, or at the end of the text. */
  lemma {:induction false} LineLengthSpec(s: string)
    requires s != []
    ensures SingleLine(s[..LineLength(s) - 1])
    ensures LineLength(s) < |s| ==> IsLineBreak(s[LineLength(s) - 1])
  {
    if !(IsLineBreak(s[0]) || |s| == 1) {
      LineLengthSpec(s[1..]);
      var k := LineLength(s);
      assert s[..k - 1] == [s[0]] + s[1..][..k - 2];
    }
  }

  /** The first line is determined by where the first line break is. */
  lemma {:induction false} LineLengthIs(s: string, k: nat)
    requires 0 < k <= |s|
    requires SingleLine(s[..k - 1])
    requires k < |s| ==> IsLineBreak(s[k - 1])
    ensures LineLength(s) == k
  {
    if !(IsLineBreak(s[0]) || |s| == 1) {
      assert k > 1 by {
        if k == 1 { assert k < |s|; }
      }
      assert s[1..][..k - 2] == s[..k - 1][1..];
      LineLengthIs(s[1..], k - 1);
    }
  }

  /** Python's `textwrap.indent(text, prefix)`: `prefix` goes before every line that is not blank. */
  function PrefixLines(text: string, prefix: string): string
    decreases |text|
  {
    if text == [] then []
    else
      var k := LineLength(text);
      PrefixLine(text[..k], prefix) + PrefixLines(text[k..], prefix)
  }

  /** One line as `textwrap.indent` emits it. */
  function PrefixLine(line: string, prefix: string): string {
    if IsBlank(line) then line else prefix + line
  }

  /** The inverse of `PrefixLines`: drop `prefix` from the start of every line that is not blank. */
  function StripPrefixes(text: string, prefix: string): string
    decreases |text|
  {
    if text == [] then []
    else
      var k := LineLength(text);
      var line := text[..k];
      (if !IsBlank(line) && prefix <= line then line[|prefix|..] else line) + StripPrefixes(text[k..], prefix)
  }

  /** `n` spaces. */
  function Spaces(n: nat): (r: string)
    ensures |r| == n
    ensures forall i :: 0 <= i < n ==> r[i] == ' '
  {
    if n == 0 then "" else " " + Spaces(n - 1)
  }

  /** The entrypoint's `indent(text, amount)`: indent by `amount` levels of four spaces. */
  function Indent(text: string, amount: nat): string {
    PrefixLines(text, Spaces(4 * amount))
  }

  /** A prefix without line breaks keeps the line structure, so the first line grows by exactly the prefix. */
  lemma {:induction false} LineLengthAfterPrefix(prefix: string, line: string, rest: string)
    requires SingleLine(prefix) && line != []
    requires LineLength(line + rest) == |line|
    ensures LineLength(prefix + line + rest) == |prefix| + |line|
  {
    var s := prefix + line + rest;
    var k := |prefix| + |line|;
    LineLengthSpec(line + rest);
    assert s[..k - 1] == prefix + (line + rest)[..|line| - 1];
    assert k < |s| ==> s[k - 1] == (line + rest)[|line| - 1];
    LineLengthIs(s, k);
  }

  /** A text that ends with a line break keeps its lines when more text follows. */
  lemma {:induction false} LineLengthAppend(a: string, b: string)
    requires a != [] && IsLineBreak(a[|a| - 1])
    ensures LineLength(a + b) == LineLength(a)
  {
    var k := LineLength(a);
    LineLengthSpec(a);
    assert (a + b)[..k - 1] == a[..k - 1];
    LineLengthIs(a + b, k);
  }

  /** `PrefixLines` works line by line: it distributes over a split after a line break. */
  lemma {:induction false} PrefixLinesAppend(a: string, b: string, prefix: string)
    requires a == [] || IsLineBreak(a[|a| - 1])
    ensures PrefixLines(a + b, prefix) == PrefixLines(a, prefix) + PrefixLines(b, prefix)
    decreases |a|
  {
    if a == [] {
      assert a + b == b;
    } else {
      var k := LineLength(a);
      var rest := a[k..];
      FirstLineAppend(a, b);
      assert rest == [] || rest[|rest| - 1] == a[|a| - 1];
      PrefixLinesAppend(rest, b, prefix);
    }
  }

  /** The first line of `a + b` is that of `a` when `a` ends with a line break. */
  lemma FirstLineAppend(a: string, b: string)
    requires a != [] && IsLineBreak(a[|a| - 1])
    ensures LineLength(a + b) == LineLength(a)
    ensures (a + b)[..LineLength(a)] == a[..LineLength(a)]
    ensures (a + b)[LineLength(a)..] == a[LineLength(a)..] + b
  {
    LineLengthAppend(a, b);
    var k := LineLength(a);
    assert (a + b)[..k] == a[..k];
    assert (a + b)[k..] == a[k..] + b;
  }

  /** A single non-blank line ending in "\n" gets the prefix in front of it. */
  lemma PrefixLinesOfLine(line: string, prefix: string)
    requires SingleLine(line) && !IsBlank(line)
    ensures PrefixLines(line + "\n", prefix) == prefix + line + "\n"
  {
    var s := line + "\n";
    assert s[..|s| - 1] == line;
    LineLengthIs(s, |s|);
    assert s[..|s|] == s;
    assert s[|s|..] == [];
  }

  /** An empty line is left as it is. */
  lemma PrefixLinesOfEmptyLine(prefix: string)
    ensures PrefixLines("\n", prefix) == "\n"
  {
    assert "\n"[1..] == [];
  }

  /** Round trip: removing the prefix again gives back the original text. */
  lemma {:induction false} StripPrefixesPrefixLines(text: string, prefix: string)
    requires SingleLine(prefix)
    ensures StripPrefixes(PrefixLines(text, prefix), prefix) == text
    decreases |text|
  {
    if text != [] {
      var k := LineLength(text);
      LineLengthSpec(text);
      var line, rest := text[..k], text[k..];
      assert text == line + rest;
      var tail := PrefixLines(rest, prefix);
      StripPrefixesPrefixLines(rest, prefix);
      assert LineLength(line + tail) == |line| by {
        if rest == [] {
          assert tail == [];
          assert line + tail == text;
        } else {
          LineLengthAppend(line, tail);
          assert line[..k - 1] == text[..k - 1];
          LineLengthIs(line, k);
        }
      }
      if IsBlank(line) {
        var out := line + tail;
        assert out[..k] == line && out[k..] == tail;
      } else {
        LineLengthAfterPrefix(prefix, line, tail);
        var out := prefix + line + tail;
        var first := out[..|prefix| + k];
        assert first == prefix + line;
        assert out[|prefix| + k..] == tail;
        assert !IsBlank(first) by {
          var j :| 0 <= j < |line| && !IsSpace(line[j]);
          assert first[|prefix| + j] == line[j];
        }
        assert prefix <= first;
        assert first[|prefix|..] == line;
      }
    }
  }

  /** The text of `lines`, each followed by "\n". */
  function Unlines(lines: seq<string>): string {
    if lines == [] then "" else lines[0] + "\n" + Unlines(lines[1..])
  }

  /** Where the first `c` of `s` is, or `|s|` when there is none. */
  function IndexOf(s: string, c: char): (k: nat)
    ensures k <= |s|
    ensures c !in s[..k]
    ensures k < |s| ==> s[k] == c
  {
    if s == [] || s[0] == c then 0 else 1 + IndexOf(s[1..], c)
  }

  /** The lines of `s`, split at "\n"; a last line without "\n" counts too. */
  function Lines(s: string): seq<string>
    decreases |s|
  {
    if s == [] then []
    else
      var k := IndexOf(s, '\n');
      if k == |s| then [s] else [s[..k]] + Lines(s[k + 1..])
  }

  /** The first `c` of `line + [c] + rest` is the one after `line`, when `line` has none. */
  lemma {:induction false} IndexOfAfter(line: string, c: char, rest: string)
    requires c !in line
    ensures IndexOf(line + [c] + rest, c) == |line|
    decreases |line|
  {
    if line != [] {
      assert (line + [c] + rest)[1..] == line[1..] + [c] + rest;
      IndexOfAfter(line[1..], c, rest);
    }
  }

  predicate NoNewlines(lines: seq<string>) {
    forall i :: 0 <= i < |lines| ==> '\n' !in lines[i]
  }

  /** Round trip: splitting the joined lines gives them back. */
  lemma {:induction false} LinesUnlines(lines: seq<string>)
    requires NoNewlines(lines)
    ensures Lines(Unlines(lines)) == lines
  {
    if lines != [] {
      var s := Unlines(lines);
      var rest := Unlines(lines[1..]);
      assert s == lines[0] + "\n" + rest;
      IndexOfAfter(lines[0], '\n', rest);
      assert s[..|lines[0]|] == lines[0];
      assert s[|lines[0]| + 1..] == rest;
      assert NoNewlines(lines[1..]) by {
        forall i | 0 <= i < |lines[1..]| ensures '\n' !in lines[1..][i] {
          assert lines[1..][i] == lines[i + 1];
        }
      }
      LinesUnlines(lines[1..]);
    }
  }

  lemma Assoc<T>(a: seq<T>, b: seq<T>, c: seq<T>)
    ensures (a + b) + c == a + (b + c)
  {
  }

  /** Joining is compatible with concatenation of line lists. */
  lemma {:induction false} UnlinesAppend(a: seq<string>, b: seq<string>)
    ensures Unlines(a + b) == Unlines(a) + Unlines(b)
  {
    if a == [] {
      assert a + b == b;
    } else {
      assert (a + b)[1..] == a[1..] + b;
      UnlinesAppend(a[1..], b);
    }
  }

  /** Printable ASCII text is a single line. */
  lemma PrintableSingleLine(s: string)
    requires forall i :: 0 <= i < |s| ==> ' ' <= s[i] <= '~'
    ensures SingleLine(s)
  {
  }

  /** `PrefixLine` applied to every line of a list. */
  function PrefixEachLine(lines: seq<string>, prefix: string): (r: seq<string>)
    ensures |r| == |lines|
  {
    seq(|lines|, i requires 0 <= i < |lines| => PrefixLine(lines[i], prefix))
  }

  /** A line ending in "\n" is blank exactly when the line without it is. */
  lemma BlankWithNewline(line: string)
    ensures IsBlank(line + "\n") <==> IsBlank(line)
  {
    var s := line + "\n";
    if !IsBlank(line) {
      var j :| 0 <= j < |line| && !IsSpace(line[j]);
      assert s[j] == line[j];
    } else {
      assert forall i :: 0 <= i < |line| ==> s[i] == line[i];
    }
  }

  /** A single line followed by "\n" is prefixed unless it is blank. */
  lemma PrefixLinesOneLine(line: string, prefix: string)
    requires SingleLine(line)
    ensures PrefixLines(line + "\n", prefix) == PrefixLine(line, prefix) + "\n"
  {
    var s := line + "\n";
    assert s[..|s| - 1] == line;
    LineLengthIs(s, |s|);
    assert s[..|s|] == s;
    assert s[|s|..] == [];
    BlankWithNewline(line);
  }

  /** Indenting a joined list of lines is joining the lines indented one by one. */
  lemma {:induction false} PrefixLinesUnlines(lines: seq<string>, prefix: string)
    requires forall i :: 0 <= i < |lines| ==> SingleLine(lines[i])
    ensures PrefixLines(Unlines(lines), prefix) == Unlines(PrefixEachLine(lines, prefix))
  {
    if lines != [] {
      var first := lines[0] + "\n";
      var tail := lines[1..];
      var out := PrefixEachLine(lines, prefix);
      assert forall i :: 0 <= i < |tail| ==> tail[i] == lines[i + 1];
      assert out[1..] == PrefixEachLine(tail, prefix);
      assert first[|first| - 1] == '\n';
      calc {
        PrefixLines(Unlines(lines), prefix);
        PrefixLines(first + Unlines(tail), prefix);
        { PrefixLinesAppend(first, Unlines(tail), prefix); }
        PrefixLines(first, prefix) + PrefixLines(Unlines(tail), prefix);
        { PrefixLinesOneLine(lines[0], prefix); PrefixLinesUnlines(tail, prefix); }
        out[0] + "\n" + Unlines(out[1..]);
        Unlines(out);
      }
    }
  }
}
