/** The parts of Go's `strings` package that the server relies on, with the
    laws that the other modules need. */
module Strings {

  /** `strings.Split` for a one-character separator. */
  function Split(s: string, sep: char): (parts: seq<string>)
    ensures |parts| >= 1
  {
    if s == "" then [""]
    else
      var rest := Split(s[1..], sep);
      if s[0] == sep then [""] + rest else rest[0 := [s[0]] + rest[0]]
  }

  /** `strings.Join` for a one-character separator. */
  function Join(parts: seq<string>, sep: char): string {
    if parts == [] then ""
    else if |parts| == 1 then parts[0]
    else parts[0] + [sep] + Join(parts[1..], sep)
  }

  /** `strings.Count` for a one-character pattern. */
  function Count(s: string, c: char): nat {
    if s == "" then 0 else (if s[0] == c then 1 else 0) + Count(s[1..], c)
  }

  predicate HasPrefix(s: string, prefix: string) {
    prefix <= s
  }

  predicate HasSuffix(s: string, suffix: string) {
    |suffix| <= |s| && s[|s| - |suffix|..] == suffix
  }

  function TrimPrefix(s: string, prefix: string): string {
    if HasPrefix(s, prefix) then s[|prefix|..] else s
  }

  function TrimLeft(s: string, cut: char -> bool): (r: string)
    ensures |r| <= |s| && r == s[|s| - |r|..]
    ensures r != "" ==> !cut(r[0])
  {
    if s != "" && cut(s[0]) then TrimLeft(s[1..], cut) else s
  }

  function TrimRight(s: string, cut: char -> bool): (r: string)
    ensures r <= s
    ensures r != "" ==> !cut(r[|r| - 1])
  {
    if s != "" && cut(s[|s| - 1]) then TrimRight(s[..|s| - 1], cut) else s
  }

  /** `strings.Trim` and `strings.TrimSpace`. */
  function Trim(s: string, cut: char -> bool): string {
    TrimRight(TrimLeft(s, cut), cut)
  }

  predicate All(s: string, p: char -> bool) {
    forall i :: 0 <= i < |s| ==> p(s[i])
  }

  /** One step of `Split`. */
  lemma SplitStep(c: char, s: string, sep: char)
    ensures var rest := Split(s, sep);
            Split([c] + s, sep) == if c == sep then [""] + rest else rest[0 := [c] + rest[0]]
  {
    assert ([c] + s)[1..] == s;
  }

  /** Splitting distributes over a separator. */
  lemma {:induction false} SplitAppend(a: string, b: string, sep: char)
    ensures Split(a + [sep] + b, sep) == Split(a, sep) + Split(b, sep)
  {
    if a == "" {
      assert a + [sep] + b == [sep] + b;
      SplitStep(sep, b, sep);
    } else {
      SplitAppendStep(a[0], a[1..], b, sep) by {
        SplitAppend(a[1..], b, sep);
      }
      assert a == [a[0]] + a[1..];
    }
  }

  lemma SplitAppendStep(c: char, a: string, b: string, sep: char)
    requires Split(a + [sep] + b, sep) == Split(a, sep) + Split(b, sep)
    ensures Split([c] + a + [sep] + b, sep) == Split([c] + a, sep) + Split(b, sep)
  {
    hide Split;
    SplitStep(c, a, sep);
    SplitStep(c, a + [sep] + b, sep);
    assert [c] + a + [sep] + b == [c] + (a + [sep] + b);
    var x, y := Split(a, sep), Split(b, sep);
    assert c != sep ==> (x + y)[0 := [c] + x[0]] == x[0 := [c] + x[0]] + y;
  }

  /** A text without the separator is its own only part. */
  lemma {:induction false} SplitOne(s: string, sep: char)
    requires sep !in s
    ensures Split(s, sep) == [s]
  {
    if s != "" {
      SplitOne(s[1..], sep);
      assert s == [s[0]] + s[1..];
    }
  }

  /** Splitting is undone by joining, and no part holds the separator: together
      these two facts determine `Split`. */
  lemma {:induction false} SplitJoin(s: string, sep: char)
    ensures Join(Split(s, sep), sep) == s
    ensures forall i :: 0 <= i < |Split(s, sep)| ==> sep !in Split(s, sep)[i]
    ensures |Split(s, sep)| == Count(s, sep) + 1
  {
    if s != "" {
      SplitJoin(s[1..], sep);
      var rest := Split(s[1..], sep);
      assert s == [s[0]] + s[1..];
      if s[0] != sep {
        JoinStep(s[0], rest, sep);
      }
    }
  }

  lemma JoinStep(c: char, parts: seq<string>, sep: char)
    requires parts != []
    ensures Join(parts[0 := [c] + parts[0]], sep) == [c] + Join(parts, sep)
  {
    var parts' := parts[0 := [c] + parts[0]];
    assert parts'[1..] == parts[1..];
    if |parts| > 1 {
      assert parts'[0] + [sep] == [c] + (parts[0] + [sep]);
    }
  }

  /** Joining is undone by splitting, for any non-empty list of parts without the separator. */
  lemma {:induction false} JoinSplit(parts: seq<string>, sep: char)
    requires parts != []
    requires forall i :: 0 <= i < |parts| ==> sep !in parts[i]
    ensures Split(Join(parts, sep), sep) == parts
  {
    SplitOne(parts[0], sep);
    if |parts| > 1 {
      JoinSplit(parts[1..], sep);
      SplitAppend(parts[0], Join(parts[1..], sep), sep);
      assert parts == [parts[0]] + parts[1..];
    }
  }

  lemma {:induction false} CountAppend(a: string, b: string, c: char)
    ensures Count(a + b, c) == Count(a, c) + Count(b, c)
  {
    if a == "" {
      assert a + b == b;
    } else {
      CountAppend(a[1..], b, c);
      assert (a + b)[1..] == a[1..] + b;
    }
  }

  lemma {:induction false} CountZero(s: string, c: char)
    requires c !in s
    ensures Count(s, c) == 0
  {
    if s != "" {
      CountZero(s[1..], c);
    }
  }

  lemma {:induction false} TrimLeftAll(pre: string, s: string, cut: char -> bool)
    requires All(pre, cut)
    ensures TrimLeft(pre + s, cut) == TrimLeft(s, cut)
  {
    if pre == "" {
      assert pre + s == s;
    } else {
      assert (pre + s)[1..] == pre[1..] + s;
      TrimLeftAll(pre[1..], s, cut);
    }
  }

  lemma {:induction false} TrimRightAll(s: string, post: string, cut: char -> bool)
    requires All(post, cut)
    ensures TrimRight(s + post, cut) == TrimRight(s, cut)
  {
    if post == "" {
      assert s + post == s;
    } else {
      var n := |post| - 1;
      assert (s + post)[..|s + post| - 1] == s + post[..n];
      TrimRightAll(s, post[..n], cut);
    }
  }

  /** Trimming removes exactly the padding around a text whose two ends are kept. */
  lemma TrimPadded(pre: string, s: string, post: string, cut: char -> bool)
    requires All(pre, cut) && All(post, cut)
    requires s != "" ==> !cut(s[0]) && !cut(s[|s| - 1])
    ensures Trim(pre + s + post, cut) == s
  {
    assert pre + s + post == pre + (s + post);
    TrimLeftAll(pre, s + post, cut);
    if s == "" {
      assert s + post == post + "";
      TrimLeftAll(post, "", cut);
    } else {
      TrimRightAll(s, post, cut);
    }
  }
}
