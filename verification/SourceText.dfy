/** The lines of a source text, as `str::lines` cuts them. */
module SourceText {
  import opened TextLines

  /** Where the first line of a text ends: at its newline, or with the text. */
  function LineEnd(text: string): (k: nat)
    ensures k <= |text| && '\n' !in text[..k] && (k < |text| ==> text[k] == '\n')
  {
    if text == "" || text[0] == '\n' then 0 else
    var k := LineEnd(text[1..]);
    assert text[..k + 1] == [text[0]] + text[1..][..k];
    k + 1
  }

  function WithoutReturn(line: string): string {
    if line != "" && line[|line| - 1] == '\r' then line[..|line| - 1] else line
  }

  /** Newlines end lines, and a carriage return before one goes with it. */
  function SourceLines(text: string): seq<string>
    decreases |text|
  {
    if text == "" then [] else
    var k := LineEnd(text);
    if k == |text| then [text] else [WithoutReturn(text[..k])] + SourceLines(text[k + 1..])
  }

  lemma {:induction false} LineEndAt(line: string, rest: string)
    requires '\n' !in line
    ensures LineEnd(line) == |line| && LineEnd(line + ['\n'] + rest) == |line|
  {
    if line == "" {
      assert line + ['\n'] + rest == ['\n'] + rest;
    } else {
      assert (line + ['\n'] + rest)[1..] == line[1..] + ['\n'] + rest;
      LineEndAt(line[1..], rest);
    }
  }

  /** A text is cut at its newlines, and one at its end does not start another line. */
  lemma {:induction false} FirstLine(line: string, rest: string)
    requires '\n' !in line
    ensures SourceLines(line) == if line == "" then [] else [line]
    ensures SourceLines(line + ['\n'] + rest) == [WithoutReturn(line)] + SourceLines(rest)
  {
    var text := line + ['\n'] + rest;
    LineEndAt(line, rest);
    assert text[..|line|] == line && text[|line| + 1..] == rest;
  }

  predicate ReturnAt(text: string, i: nat) {
    i + 1 < |text| && text[i] == '\r' && text[i + 1] == '\n'
  }

  /** The text without its carriage returns before newlines. */
  function DropReturns(text: string): string {
    if text == "" then ""
    else (if ReturnAt(text, 0) then "" else [text[0]]) + DropReturns(text[1..])
  }

  function LastNewline(text: string): string {
    if text != "" && text[|text| - 1] == '\n' then "\n" else ""
  }

  lemma {:induction false} DropHead(c: char, rest: string)
    ensures DropReturns([c] + rest) ==
      if c == '\r' && rest != "" && rest[0] == '\n' then DropReturns(rest) else [c] + DropReturns(rest)
  {
    assert ([c] + rest)[1..] == rest;
  }

  lemma {:induction false} DropInLine(line: string)
    requires '\n' !in line
    ensures DropReturns(line) == line
  {
    if line != "" {
      DropInLine(line[1..]);
      DropHead(line[0], line[1..]);
      assert line == [line[0]] + line[1..];
    }
  }

  lemma {:induction false} DropAtNewline(line: string, rest: string)
    requires '\n' !in line
    ensures DropReturns(line + ['\n'] + rest) == WithoutReturn(line) + ['\n'] + DropReturns(rest)
  {
    hide DropReturns;
    if line == "" {
      DropHead('\n', rest);
      assert line + ['\n'] + rest == ['\n'] + rest;
    } else {
      var tail := line[1..];
      DropAtNewline(tail, rest);
      DropHead(line[0], tail + ['\n'] + rest);
      assert line + ['\n'] + rest == [line[0]] + (tail + ['\n'] + rest);
      ReturnInTail(line);
      assert tail != "" ==> (tail + ['\n'] + rest)[0] in line;
    }
  }

  lemma {:induction false} ReturnInTail(line: string)
    requires line != ""
    ensures WithoutReturn(line) ==
      if |line| == 1 then (if line[0] == '\r' then "" else line) else [line[0]] + WithoutReturn(line[1..])
  {
  }

  /** Joining the lines gives the text back but for a last newline and the carriage returns. */
  lemma {:induction false} LinesJoined(text: string)
    ensures text != "" ==> SourceLines(text) != []
    ensures JoinLines(SourceLines(text)) + LastNewline(text) == DropReturns(text)
    decreases |text|
  {
    var k := LineEnd(text);
    if k == |text| {
      assert text[..k] == text;
      DropInLine(text);
    } else {
      var line, rest := text[..k], text[k + 1..];
      assert text == line + ['\n'] + rest;
      DropAtNewline(line, rest);
      LinesJoined(rest);
      hide DropReturns, LineEnd, SourceLines;
      OneMoreLine(text, line, rest);
    }
  }

  lemma {:induction false} OneMoreLine(text: string, line: string, rest: string)
    requires '\n' !in line && text == line + ['\n'] + rest
    requires rest != "" ==> SourceLines(rest) != []
    ensures SourceLines(text) == [WithoutReturn(line)] + SourceLines(rest)
    ensures JoinLines(SourceLines(text)) + LastNewline(text)
      == WithoutReturn(line) + ['\n'] + (JoinLines(SourceLines(rest)) + LastNewline(rest))
  {
    EndsHere(text, line, rest);
    assert text[..|line|] == line && text[|line| + 1..] == rest;
    assert rest != "" ==> LastNewline(text) == LastNewline(rest);
    hide LineEnd, LastNewline;
    if rest != "" { JoinConcat([WithoutReturn(line)], SourceLines(rest)); }
    assert SourceLines("") == [];
  }

  lemma {:induction false} EndsHere(text: string, line: string, rest: string)
    requires '\n' !in line && text == line + ['\n'] + rest
    ensures LineEnd(text) == |line|
  {
    var k := LineEnd(text);
    hide LineEnd;
    assert text[|line|] == '\n';
    assert forall i | 0 <= i < k :: text[i] in text[..k];
    assert forall i | 0 <= i < |line| :: text[i] == line[i] && line[i] in line;
  }

  /** All of it comes back exactly when no carriage return stands before a newline. */
  lemma {:induction false} DropsNothing(text: string)
    ensures |DropReturns(text)| <= |text|
    ensures DropReturns(text) == text <==> forall i: nat :: !ReturnAt(text, i)
  {
    if text != "" {
      var rest := text[1..];
      DropsNothing(rest);
      assert text == [text[0]] + rest;
      ReturnsShift(text);
      if DropReturns(text) == text && !ReturnAt(text, 0) {
        assert ([text[0]] + DropReturns(rest))[1..] == DropReturns(rest);
      }
    }
  }

  lemma {:induction false} ReturnsShift(text: string)
    requires text != ""
    ensures (forall i: nat :: !ReturnAt(text, i)) <==>
      !ReturnAt(text, 0) && forall i: nat :: !ReturnAt(text[1..], i)
  {
    if i: nat :| ReturnAt(text[1..], i) {
      assert ReturnAt(text, i + 1);
    }
    if i: nat :| ReturnAt(text, i) {
      assert i > 0 ==> ReturnAt(text[1..], i - 1);
    }
  }
}
