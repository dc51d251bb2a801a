/** `contextAtOffset` (util.go): the line and column shown for a syntax error in
    the configuration file. */
module OffsetContext {
  import opened Strings

  datatype Context = Context(start: nat, end: nat, line: nat, pos: int)

  /** `strings.LastIndex` for one character; -1 when it does not occur. */
  function LastIndex(s: string, c: char): (i: int)
    ensures -1 <= i < |s|
    ensures i >= 0 ==> s[i] == c
    ensures forall j :: i < j < |s| ==> s[j] != c
  {
    if s == "" then -1
    else if s[|s| - 1] == c then |s| - 1
    else LastIndex(s[..|s| - 1], c)
  }

  /** `strings.Index` for one character; -1 when it does not occur. */
  function Index(s: string, c: char): (i: int)
    ensures -1 <= i < |s|
    ensures i >= 0 ==> s[i] == c
    ensures forall j :: 0 <= j < (if i < 0 then |s| else i) ==> s[j] != c
  {
    if s == "" then -1
    else if s[0] == c then 0
    else
      var i := Index(s[1..], c);
      if i < 0 then -1 else i + 1
  }

  /** `contextAtOffset`. Slicing `str[:offset]` demands an offset inside the text. */
  function ContextAtOffset(str: string, offset: nat): Context
    requires offset <= |str|
  {
    var start := LastIndex(str[..offset], '\n') + 1;
    var idx := Index(str[start..], '\n');
    var end := if idx >= 0 then start + idx else |str|;
    Context(start, end, Count(str[..start], '\n'), offset - start - 1)
  }

  /** A text that starts with a line and its newline, or ends there, has that line as first part. */
  lemma FirstLine(text: string, line: string)
    requires '\n' !in line && line <= text
    requires text == line || text[|line|] == '\n'
    ensures Split(text, '\n')[0] == line
  {
    SplitOne(line, '\n');
    if text != line {
      var rest := text[|line| + 1..];
      assert text == line + ['\n'] + rest;
      SplitAppend(line, rest, '\n');
    }
  }

  /** The part after a newline is found at the index that counts the newlines up to it. */
  lemma PartAfterNewline(before: string, text: string)
    ensures var lines, line := Split(before + ['\n'] + text, '\n'), Count(before + ['\n'], '\n');
            line < |lines| && lines[line] == Split(text, '\n')[0]
  {
    SplitAppend(before, text, '\n');
    SplitJoin(before, '\n');
    CountAppend(before, ['\n'], '\n');
  }

  /** A newline-free stretch bounded by newlines or the ends of the text is one whole part of
      the split, at the index that counts the newlines before it. */
  lemma LineIsPart(str: string, start: nat, end: nat)
    requires start <= end <= |str|
    requires start == 0 || str[start - 1] == '\n'
    requires end == |str| || str[end] == '\n'
    requires '\n' !in str[start..end]
    ensures var lines, line := Split(str, '\n'), Count(str[..start], '\n');
            line < |lines| && lines[line] == str[start..end]
  {
    FirstLine(str[start..], str[start..end]);
    if start == 0 {
      assert str[start..] == str;
    } else {
      assert str == str[..start - 1] + ['\n'] + str[start..];
      assert str[..start] == str[..start - 1] + ['\n'];
      PartAfterNewline(str[..start - 1], str[start..]);
    }
  }

  /** For every offset in the text, `[start, end)` is the `line`-th line counted from 0,
      the column is inside that line or -1, and `start + pos` is the byte before the offset. */
  lemma ContextIsLine(str: string, offset: nat)
    requires offset <= |str|
    ensures var c := ContextAtOffset(str, offset);
            var lines := Split(str, '\n');
            && c.start <= c.end <= |str|
            && c.line < |lines| && str[c.start..c.end] == lines[c.line]
            && c.start + c.pos == offset - 1
            && -1 <= c.pos < |lines[c.line]|
  {
    var c := ContextAtOffset(str, offset);
    var rest := str[c.start..];
    assert forall j :: c.start <= j < c.end ==> str[j] == rest[j - c.start];
    assert c.end < |str| ==> str[c.end] == rest[c.end - c.start];
    assert forall j :: c.start <= j < offset ==> str[j] == str[..offset][j];
    LineIsPart(str, c.start, c.end);
  }

  /** `fatalSyntaxError` indents the caret by `strings.Repeat(" ", pos)`, which panics on a
      negative count. The caret is placed exactly when the offset is at least 1 and the byte
      before it is not a newline. */
  lemma CaretPlacedExactly(str: string, offset: nat)
    requires offset <= |str|
    ensures ContextAtOffset(str, offset).pos >= 0 <==> offset >= 1 && str[offset - 1] != '\n'
  {
    if offset >= 1 {
      assert str[..offset][offset - 1] == str[offset - 1];
    }
  }

  /** The failing side: a string that is cut by a newline is rejected at that newline, and an empty file at its
      start. Neither has a column. */
  lemma NewlineHasNoCaret()
    ensures ContextAtOffset("{\"a\n", 4).pos == -1 && ContextAtOffset("", 0).pos == -1
  {
    hide ContextAtOffset, Split;
    CaretPlacedExactly("{\"a\n", 4);
    ContextIsLine("{\"a\n", 4);
    ContextIsLine("", 0);
    CaretPlacedExactly("", 0);
  }

  /** Line and column determine the offset. */
  lemma ContextInjective(str: string, offset: nat, offset': nat)
    requires offset <= |str| && offset' <= |str|
    requires ContextAtOffset(str, offset).line == ContextAtOffset(str, offset').line
    requires ContextAtOffset(str, offset).pos == ContextAtOffset(str, offset').pos
    ensures offset == offset'
  {
    var c, c' := ContextAtOffset(str, offset), ContextAtOffset(str, offset');
    ContextIsLine(str, offset);
    ContextIsLine(str, offset');
    if c.start < c'.start {
      LaterStartCountsMore(str, c.start, c'.start);
    } else if c'.start < c.start {
      LaterStartCountsMore(str, c'.start, c.start);
    }
  }

  lemma LaterStartCountsMore(str: string, i: nat, j: nat)
    requires i < j <= |str| && str[j - 1] == '\n'
    ensures Count(str[..i], '\n') < Count(str[..j], '\n')
  {
    assert str[..j] == str[..i] + (str[i..j - 1] + ['\n']);
    CountAppend(str[..i], str[i..j - 1] + ['\n'], '\n');
    CountAppend(str[i..j - 1], ['\n'], '\n');
  }
}
