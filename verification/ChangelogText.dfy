/** Changelog text: splitting into lines, blank lines, and the two kinds of heading. */
module ChangelogText {
  import opened TextLines

  // ---------------------------------------------------------------- white space

  /** The white space of `trim` and of `\s`: ECMA-262 (2022), sections 12.2 and 12.3. */
  predicate IsSpace(c: char) {
    var n := c as int;
    9 <= n <= 13 || n == 32 || n == 160 || n == 5760 || 8192 <= n <= 8202 || n == 8232 || n == 8233
    || n == 8239 || n == 8287 || n == 12288 || n == 65279
  }

  function DropSpaces(s: string): string {
    if s != "" && IsSpace(s[0]) then DropSpaces(s[1..]) else s
  }

  function DropTrailing(s: string): string {
    if s != "" && IsSpace(s[|s| - 1]) then DropTrailing(s[..|s| - 1]) else s
  }

  function TrimText(s: string): string {
    DropTrailing(DropSpaces(s))
  }

  predicate IsBlank(s: string) {
    forall c <- s :: IsSpace(c)
  }

  /** No white space at either end, and not empty. */
  predicate IsTrimmed(s: string) {
    s != "" && !IsSpace(s[0]) && !IsSpace(s[|s| - 1])
  }

  lemma {:induction false} DropTrailingKeeps(s: string)
    requires s != "" && !IsSpace(s[0])
    ensures IsTrimmed(DropTrailing(s))
    ensures forall c <- DropTrailing(s) :: c in s
  {
    if IsSpace(s[|s| - 1]) {
      DropTrailingKeeps(s[..|s| - 1]);
    }
  }

  lemma {:induction false} TrimTrimmed(s: string)
    requires !IsBlank(s)
    ensures IsTrimmed(TrimText(s)) && forall c <- TrimText(s) :: c in s
  {
    if IsSpace(s[0]) {
      assert s == [s[0]] + s[1..];
      TrimTrimmed(s[1..]);
    } else {
      DropTrailingKeeps(s);
    }
  }

  lemma {:induction false} TrimOfTrimmed(s: string)
    requires IsTrimmed(s)
    ensures TrimText(s) == s && TrimText(" " + s) == s
  {
    assert (" " + s)[1..] == s;
  }

  lemma {:induction false} BlankConcat(a: string, b: string)
    ensures IsBlank(a + b) <==> IsBlank(a) && IsBlank(b)
  {
    assert forall c :: c in a + b <==> c in a || c in b;
  }

  /** What comes before the first character that is not white space. */
  lemma {:induction false} DroppedIs(s: string) returns (a: string)
    ensures s == a + DropSpaces(s) && IsBlank(a)
    ensures DropSpaces(s) == "" || !IsSpace(DropSpaces(s)[0])
  {
    if s != "" && IsSpace(s[0]) {
      a := DroppedIs(s[1..]);
      a := [s[0]] + a;
      assert s == [s[0]] + s[1..];
    } else {
      a := "";
    }
  }

  lemma {:induction false} TrailingIs(s: string) returns (b: string)
    ensures s == DropTrailing(s) + b && IsBlank(b)
    ensures DropTrailing(s) == "" || !IsSpace(DropTrailing(s)[|DropTrailing(s)| - 1])
  {
    if s != "" && IsSpace(s[|s| - 1]) {
      var init, last := s[..|s| - 1], s[|s| - 1];
      assert DropTrailing(s) == DropTrailing(init);
      b := TrailingIs(init);
      hide DropTrailing, IsSpace;
      BlankConcat(b, [last]);
      assert s == init + [last];
      b := b + [last];
    } else {
      b := "";
    }
  }

  /** A text is its trimmed form with white space around. */
  lemma {:induction false} TrimIs(s: string) returns (a: string, b: string)
    ensures s == a + TrimText(s) + b && IsBlank(a) && IsBlank(b)
    ensures TrimText(s) == "" || IsTrimmed(TrimText(s))
  {
    a := DroppedIs(s);
    b := TrailingIs(DropSpaces(s));
    var t := TrimText(s);
    assert t != "" ==> t[0] == DropSpaces(s)[0];
    hide DropSpaces, DropTrailing;
  }

  lemma {:induction false} DropBlank(a: string, t: string)
    requires IsBlank(a) && (t == "" || !IsSpace(t[0]))
    ensures DropSpaces(a + t) == t
  {
    if a == "" {
      assert a + t == t;
    } else {
      assert (a + t)[1..] == a[1..] + t && (a + t)[0] == a[0] && a[0] in a;
      DropBlank(a[1..], t);
    }
  }

  lemma {:induction false} DropBlankEnd(t: string, b: string)
    requires IsBlank(b) && (t == "" || !IsSpace(t[|t| - 1]))
    ensures DropTrailing(t + b) == t
  {
    if b == "" {
      assert t + b == t;
    } else {
      var last := |b| - 1;
      assert (t + b)[..|t + b| - 1] == t + b[..last] && (t + b)[|t + b| - 1] == b[last] && b[last] in b;
      DropBlankEnd(t, b[..last]);
    }
  }

  /** ... and no other text without white space at its ends is that. */
  lemma {:induction false} TrimOnly(a: string, t: string, b: string)
    requires IsBlank(a) && IsBlank(b) && (t == "" || IsTrimmed(t))
    ensures TrimText(a + t + b) == t
  {
    if t == "" {
      assert a + t + b == (a + b) + "";
      BlankConcat(a, b);
      DropBlank(a + b, "");
    } else {
      assert a + t + b == a + (t + b);
      DropBlank(a, t + b);
      DropBlankEnd(t, b);
    }
  }

  // ---------------------------------------------------------------- headings

  function FirstClose(s: string): nat {
    if s == "" || s[0] == ']' then 0 else 1 + FirstClose(s[1..])
  }

  /** Two hashes, a space and a non-empty bracketed title. */
  predicate IsReleaseHeading(line: string) {
    && |line| >= 4 && line[..4] == "## ["
    && 1 <= FirstClose(line[4..]) < |line| - 4
  }

  /** Three hashes, white space and something after it. */
  predicate IsSubsectionHeading(line: string) {
    && |line| >= 4 && line[..3] == "###" && IsSpace(line[3]) && !IsBlank(line[3..])
  }

  function SubsectionTitle(line: string): string {
    if |line| >= 3 then TrimText(line[3..]) else TrimText(line)
  }

  function SubsectionLine(title: string): string {
    "### " + title
  }

  /** A rendered subsection heading reads back as a heading with the same title. */
  lemma {:induction false} RenderedHeading(title: string)
    requires IsTrimmed(title)
    ensures IsSubsectionHeading(SubsectionLine(title)) && !IsReleaseHeading(SubsectionLine(title))
    ensures SubsectionTitle(SubsectionLine(title)) == title
  {
    var line := SubsectionLine(title);
    assert line[3..] == " " + title && title[0] in line[3..];
    assert line[..4][2] != "## ["[2];
    TrimOfTrimmed(title);
  }

  lemma {:induction false} TitleTrimmed(line: string)
    requires IsSubsectionHeading(line)
    ensures IsTrimmed(SubsectionTitle(line)) && forall c <- SubsectionTitle(line) :: c in line
  {
    TrimTrimmed(line[3..]);
  }

  /** Subsection headings are three hashes, white space and a title, with nothing but white space
      after it. */
  lemma {:induction false} SubsectionHeadingIs(a: string, title: string, b: string)
    requires IsBlank(a) && a != "" && IsTrimmed(title) && IsBlank(b)
    ensures IsSubsectionHeading("###" + a + title + b) && SubsectionTitle("###" + a + title + b) == title
  {
    var line := "###" + a + title + b;
    assert line[3..] == a + title + b && line[3] == a[0] && a[0] in a && title[0] in line[3..];
    TrimOnly(a, title, b);
  }

  lemma {:induction false} OnlySubsectionHeadings(line: string) returns (a: string, b: string)
    requires IsSubsectionHeading(line)
    ensures line == "###" + a + SubsectionTitle(line) + b
    ensures IsBlank(a) && a != "" && IsTrimmed(SubsectionTitle(line)) && IsBlank(b)
  {
    a, b := TrimIs(line[3..]);
    TrimTrimmed(line[3..]);
    assert line == line[..3] + line[3..];
  }

  // ---------------------------------------------------------------- lines

  /** Carriage returns become newlines, alone or before one. */
  function Normalized(content: string): string {
    if content == "" then ""
    else if content[0] == '\r' then
      "\n" + Normalized(if |content| > 1 && content[1] == '\n' then content[2..] else content[1..])
    else [content[0]] + Normalized(content[1..])
  }

  function FirstNewline(s: string): (n: nat)
    ensures n <= |s| && '\n' !in s[..n] && (n < |s| ==> s[n] == '\n')
  {
    if s == "" || s[0] == '\n' then 0 else 1 + FirstNewline(s[1..])
  }

  function Split(s: string): (lines: seq<string>)
    ensures lines != []
    decreases |s|
  {
    var n := FirstNewline(s);
    if n == |s| then [s] else [s[..n]] + Split(s[n + 1..])
  }

  function SplitContent(content: string): seq<string> {
    var s := Normalized(content);
    if s != "" && s[|s| - 1] == '\n' then Split(s[..|s| - 1]) else Split(s)
  }

  predicate CleanLine(s: string) {
    '\n' !in s && '\r' !in s
  }

  predicate CleanLines(lines: seq<string>) {
    forall l <- lines :: CleanLine(l)
  }

  lemma {:induction false} NormalizedHasNoReturn(content: string)
    ensures '\r' !in Normalized(content)
    decreases |content|
  {
    if content != "" {
      if content[0] == '\r' {
        NormalizedHasNoReturn(if |content| > 1 && content[1] == '\n' then content[2..] else content[1..]);
      } else {
        NormalizedHasNoReturn(content[1..]);
      }
    }
  }

  lemma {:induction false} NormalizedStays(s: string)
    requires '\r' !in s
    ensures Normalized(s) == s
  {
    if s != "" { NormalizedStays(s[1..]); }
  }

  lemma {:induction false} SplitClean(s: string)
    requires '\r' !in s
    ensures CleanLines(Split(s))
    decreases |s|
  {
    var n := FirstNewline(s);
    assert CleanLine(s[..n]);
    if n == |s| {
      assert s[..n] == s;
    } else {
      SplitClean(s[n + 1..]);
      assert Split(s) == [s[..n]] + Split(s[n + 1..]);
      hide Split, FirstNewline, CleanLine;
    }
  }

  /** The lines of any content are free of line terminators. */
  lemma {:induction false} ContentClean(content: string)
    ensures CleanLines(SplitContent(content))
  {
    var s := Normalized(content);
    NormalizedHasNoReturn(content);
    if s != "" && s[|s| - 1] == '\n' { SplitClean(s[..|s| - 1]); } else { SplitClean(s); }
  }

  lemma {:induction false} FirstNewlineAt(a: string, rest: string)
    requires '\n' !in a
    ensures FirstNewline(a) == |a| && FirstNewline(a + "\n" + rest) == |a|
  {
    if a == "" {
      assert a + "\n" + rest == "\n" + rest;
    } else {
      assert (a + "\n" + rest)[1..] == a[1..] + "\n" + rest;
      FirstNewlineAt(a[1..], rest);
    }
  }

  lemma {:induction false} SplitJoin(lines: seq<string>)
    requires lines != [] && CleanLines(lines)
    ensures Split(JoinLines(lines)) == lines && '\r' !in JoinLines(lines)
  {
    assert lines[0] in lines;
    if |lines| == 1 {
      FirstNewlineAt(lines[0], "");
    } else {
      SplitJoin(lines[1..]);
      JoinConcat([lines[0]], lines[1..]);
      assert lines == [lines[0]] + lines[1..];
      FirstNewlineAt(lines[0], JoinLines(lines[1..]));
      var s, n := JoinLines(lines), |lines[0]|;
      assert s[..n] == lines[0] && s[n + 1..] == JoinLines(lines[1..]);
    }
  }

  /** Rendered text reads back as its lines; an empty rendering as one empty line. */
  lemma {:induction false} RenderedReadsBack(lines: seq<string>)
    requires CleanLines(lines)
    ensures SplitContent(JoinLines(lines) + "\n") == if lines == [] then [""] else lines
  {
    var all := if lines == [] then [""] else lines;
    SplitJoin(all);
    var s := JoinLines(all);
    NormalizedStays(s + "\n");
    assert (s + "\n")[..|s|] == s;
  }

  // ---------------------------------------------------------------- what the lines of a content are

  predicate Terminates(term: string, rest: string) {
    term == "\n" || term == "\r\n" || (term == "\r" && (rest == "" || rest[0] != '\n'))
  }

  lemma {:induction false} NormalizedConcat(line: string, rest: string)
    requires '\r' !in line
    ensures Normalized(line + rest) == line + Normalized(rest)
  {
    if line == "" {
      assert line + rest == rest;
    } else {
      assert (line + rest)[1..] == line[1..] + rest;
      NormalizedConcat(line[1..], rest);
    }
  }

  lemma {:induction false} NormalizedBreak(term: string, rest: string)
    requires Terminates(term, rest)
    ensures Normalized(term + rest) == "\n" + Normalized(rest)
  {
    if term == "\r\n" {
      assert (term + rest)[2..] == rest;
    } else {
      assert (term + rest)[1..] == rest;
    }
  }

  lemma {:induction false} NormalizedSome(rest: string)
    ensures rest != "" <==> Normalized(rest) != ""
  {
  }

  lemma {:induction false} SplitNext(line: string, rest: string)
    requires '\n' !in line
    ensures Split(line) == [line] && Split(line + "\n" + rest) == [line] + Split(rest)
  {
    FirstNewlineAt(line, rest);
    assert (line + "\n" + rest)[..|line|] == line && (line + "\n" + rest)[|line| + 1..] == rest;
  }

  lemma {:induction false} SplitMore(line: string, s: string)
    requires '\n' !in line && s != ""
    ensures var all := line + "\n" + s;
      && all[|all| - 1] == s[|s| - 1]
      && Split(all) == [line] + Split(s) && Split(all[..|all| - 1]) == [line] + Split(s[..|s| - 1])
  {
    var all := line + "\n" + s;
    assert all[..|all| - 1] == line + "\n" + s[..|s| - 1];
    SplitNext(line, s);
    SplitNext(line, s[..|s| - 1]);
    hide Split;
  }

  lemma {:induction false} OneLine(line: string)
    requires CleanLine(line)
    ensures SplitContent(line) == [line] == SplitContent(line + "\n")
  {
    NormalizedStays(line);
    NormalizedStays(line + "\n");
    SplitNext(line, "");
    hide Split, Normalized;
    assert (line + "\n")[..|line|] == line;
  }

  lemma {:induction false} NormalizedLine(line: string, term: string, rest: string)
    requires CleanLine(line) && Terminates(term, rest)
    ensures Normalized(line + term + rest) == line + "\n" + Normalized(rest)
  {
    NormalizedBreak(term, rest);
    NormalizedConcat(line, term + rest);
    hide Normalized;
    assert line + term + rest == line + (term + rest);
    assert line + ("\n" + Normalized(rest)) == line + "\n" + Normalized(rest);
  }

  /** What is split is the normalized text, without a newline at its end. */
  function SplitNormal(s: string): seq<string> {
    if s != "" && s[|s| - 1] == '\n' then Split(s[..|s| - 1]) else Split(s)
  }

  lemma {:induction false} SplitsNormal(content: string)
    ensures SplitContent(content) == SplitNormal(Normalized(content))
  {
  }

  lemma {:induction false} SplitNormalMore(line: string, s: string)
    requires '\n' !in line && s != ""
    ensures SplitNormal(line + "\n" + s) == [line] + SplitNormal(s)
  {
    SplitMore(line, s);
    hide Split;
  }

  lemma {:induction false} LastLine(line: string, term: string)
    requires CleanLine(line) && Terminates(term, "")
    ensures SplitContent(line + term) == [line]
  {
    NormalizedLine(line, term, "");
    assert Normalized("") == "";
    OneLine(line);
    NormalizedStays(line + "\n");
    hide *;
    assert line + term + "" == line + term && line + "\n" + "" == line + "\n";
    SplitsNormal(line + term);
    SplitsNormal(line + "\n");
  }

  lemma {:induction false} InnerLine(line: string, term: string, rest: string)
    requires CleanLine(line) && Terminates(term, rest) && rest != ""
    ensures SplitContent(line + term + rest) == [line] + SplitContent(rest)
  {
    assert '\n' !in line;
    hide *;
    NormalizedLine(line, term, rest);
    NormalizedSome(rest);
    SplitsNormal(line + term + rest);
    SplitsNormal(rest);
    SplitNormalMore(line, Normalized(rest));
  }

  /** A content is cut at each newline, carriage return, or both together, and one at its end does
      not start another line. */
  lemma {:induction false} ContentLines(line: string, term: string, rest: string)
    requires CleanLine(line) && Terminates(term, rest)
    ensures SplitContent(line) == [line]
    ensures SplitContent(line + term + rest) == [line] + if rest == "" then [] else SplitContent(rest)
  {
    OneLine(line);
    hide *;
    if rest == "" {
      assert line + term + rest == line + term;
      LastLine(line, term);
    } else {
      InnerLine(line, term, rest);
    }
  }
}
