/** The target URL of a proxy and its printed form: `String` and `EscapedPath` of net/url as of Go 1.9, for
    a URL with a scheme. Strings are strings of bytes, one character each. */
module TargetUrl {
  import opened Common

  datatype User = User(name: string, password: Option<string>)

  datatype Target = Target(
    scheme: string, opaq: string, user: Option<User>, host: string, path: string, rawPath: string,
    forceQuery: bool, rawQuery: string, fragment: string)

  // ---------------------------------------------------------------------- escaping

  datatype Mode = InPath | InUser | InHost | InFragment

  /** Whether a byte must be escaped (sections 2.2 and 2.3 of RFC 3986, and net/url's exceptions). */
  predicate ShouldEscape(c: char, mode: Mode) {
    if 'A' <= c <= 'Z' || 'a' <= c <= 'z' || '0' <= c <= '9' || c in "-_.~" then false
    else if mode.InHost? then c !in "!$&'()*+,;=:[]<>\""
    else if c in "$&+,/:;=?@" then
      match mode
      case InPath => c == '?'
      case InUser => c in "@/?:"
      case _ => false
    else true
  }

  function HexDigit(n: nat): char
    requires n < 16
  {
    if n < 10 then ('0' as int + n) as char else ('A' as int + n - 10) as char
  }

  function Escape(s: string, mode: Mode): string {
    if s == "" then ""
    else
      (if ShouldEscape(s[0], mode) then ['%', HexDigit(s[0] as int / 16 % 16), HexDigit(s[0] as int % 16)] else [s[0]])
      + Escape(s[1..], mode)
  }

  function HexValue(c: char): Option<nat> {
    if '0' <= c <= '9' then Some(c as int - '0' as int)
    else if 'a' <= c <= 'f' then Some(c as int - 'a' as int + 10)
    else if 'A' <= c <= 'F' then Some(c as int - 'A' as int + 10)
    else None
  }

  /** `unescape` for paths; a percent sign needs two hexadecimal digits. */
  function Unescape(s: string): Option<string> {
    if s == "" then Some("")
    else if s[0] != '%' then
      match Unescape(s[1..])
      case None => None
      case Some(rest) => Some([s[0]] + rest)
    else if |s| < 3 || HexValue(s[1]).None? || HexValue(s[2]).None? then None
    else
      match Unescape(s[3..])
      case None => None
      case Some(rest) => Some([(16 * HexValue(s[1]).value + HexValue(s[2]).value) as char] + rest)
  }

  predicate ValidEncodedPath(s: string) {
    forall i :: 0 <= i < |s| ==> s[i] in "!$&'()*+,;=:@[]%" || !ShouldEscape(s[i], InPath)
  }

  /** `rawPath` is an encoding of `path`, so it is what is printed. */
  predicate Encodes(rawPath: string, path: string) {
    rawPath != "" && ValidEncodedPath(rawPath) && Unescape(rawPath) == Some(path)
  }

  function EscapedPath(t: Target): string {
    if Encodes(t.rawPath, t.path) then t.rawPath
    else if t.path == "*" then "*"
    else Escape(t.path, InPath)
  }

  // ---------------------------------------------------------------------- printing

  function PrintedUser(user: Option<User>): string {
    match user
    case None => ""
    case Some(User(name, None)) => Escape(name, InUser) + "@"
    case Some(User(name, Some(password))) => Escape(name, InUser) + ":" + Escape(password, InUser) + "@"
  }

  function PrintedPath(t: Target): string {
    var path := EscapedPath(t);
    (if path != "" && path[0] != '/' && t.host != "" then "/" else "") + path
  }

  function PrintedTail(t: Target): string {
    (if t.forceQuery || t.rawQuery != "" then "?" + t.rawQuery else "")
    + (if t.fragment != "" then "#" + Escape(t.fragment, InFragment) else "")
  }

  /** What follows the scheme's colon, and the two slashes if there is no opaque part. */
  function PrintedRest(t: Target): string {
    (if t.opaq != "" then t.opaq else PrintedUser(t.user) + Escape(t.host, InHost) + PrintedPath(t)) + PrintedTail(t)
  }

  /** `target.String()`. */
  function Printed(t: Target): string {
    t.scheme + ":" + (if t.opaq != "" then "" else "//") + PrintedRest(t)
  }

  // ------------------------------------------------------------ what printing keeps

  predicate Plain(s: string, mode: Mode) {
    forall i :: 0 <= i < |s| ==> !ShouldEscape(s[i], mode)
  }

  /** Escaping lengthens a text, or leaves it as it is if nothing in it needs escaping. */
  lemma {:induction false} EscapeLengthens(s: string, mode: Mode)
    ensures |s| <= |Escape(s, mode)|
    ensures |Escape(s, mode)| == |s| <==> Plain(s, mode)
    ensures Plain(s, mode) ==> Escape(s, mode) == s
  {
    hide ShouldEscape;
    if s != "" {
      EscapeLengthens(s[1..], mode);
      PlainCons(s, mode);
      assert [s[0]] + s[1..] == s;
    }
  }

  lemma PlainCons(s: string, mode: Mode)
    requires s != ""
    ensures Plain(s, mode) <==> !ShouldEscape(s[0], mode) && Plain(s[1..], mode)
  {
    hide ShouldEscape;
    if !ShouldEscape(s[0], mode) && Plain(s[1..], mode) {
      forall i | 0 <= i < |s| ensures !ShouldEscape(s[i], mode) {
        if i > 0 {
          assert s[i] == s[1..][i - 1];
        }
      }
    }
    assert forall i :: 0 <= i < |s| - 1 ==> s[1..][i] == s[i + 1];
  }

  lemma {:induction false} UnescapeShortens(s: string)
    ensures Unescape(s).Some? ==> |Unescape(s).value| <= |s|
    ensures Unescape(s) == Some("") ==> s == ""
  {
    if s != "" {
      UnescapeShortens(s[1..]);
      if |s| >= 3 {
        UnescapeShortens(s[3..]);
      }
    }
  }

  /** The characters that need no escaping, besides letters and digits. */
  lemma PlainCharacters(c: char)
    requires !('a' <= c <= 'z' || 'A' <= c <= 'Z' || '0' <= c <= '9')
    ensures !ShouldEscape(c, InPath) <==> c in "-_.~$&+,/:;=@"
    ensures !ShouldEscape(c, InUser) <==> c in "-_.~$&+,;="
    ensures !ShouldEscape(c, InHost) <==> c in "-_.~!$&'()*+,;=:[]<>\""
    ensures !ShouldEscape(c, InFragment) <==> c in "-_.~$&+,/:;=?@"
  {
  }

  lemma LettersAndDigitsPlain(c: char, mode: Mode)
    requires 'a' <= c <= 'z' || 'A' <= c <= 'Z' || '0' <= c <= '9'
    ensures !ShouldEscape(c, mode)
  {
  }

  /** Escaping a path is undone by unescaping it, whatever its bytes. */
  lemma {:induction false} EscapeRoundTrip(s: string)
    requires forall i :: 0 <= i < |s| ==> s[i] < '\U{100}'
    ensures Unescape(Escape(s, InPath)) == Some(s)
  {
    if s != "" {
      EscapeRoundTrip(s[1..]);
      var rest := Escape(s[1..], InPath);
      assert s == [s[0]] + s[1..];
      hide ShouldEscape, Escape;
      EscapeStep(s);
      if ShouldEscape(s[0], InPath) {
        UnescapeByte(s[0], rest);
      } else {
        PlainStep(s[0], rest);
      }
    }
  }

  lemma EscapeStep(s: string)
    requires s != ""
    ensures Escape(s, InPath) ==
            (if ShouldEscape(s[0], InPath) then ['%', HexDigit(s[0] as int / 16 % 16), HexDigit(s[0] as int % 16)] else [s[0]])
            + Escape(s[1..], InPath)
  {
  }

  lemma PlainStep(c: char, rest: string)
    requires !ShouldEscape(c, InPath) && Unescape(rest).Some?
    ensures Unescape([c] + rest) == Some([c] + Unescape(rest).value)
  {
    assert ([c] + rest)[1..] == rest;
  }

  lemma UnescapeByte(c: char, rest: string)
    requires c < '\U{100}' && Unescape(rest).Some?
    ensures Unescape(['%', HexDigit(c as int / 16 % 16), HexDigit(c as int % 16)] + rest) == Some([c] + Unescape(rest).value)
  {
    var text := ['%', HexDigit(c as int / 16 % 16), HexDigit(c as int % 16)] + rest;
    assert text[3..] == rest && text[1] == HexDigit(c as int / 16 % 16) && text[2] == HexDigit(c as int % 16);
    HexRoundTrip(c as int / 16 % 16);
    HexRoundTrip(c as int % 16);
    hide HexDigit, HexValue;
    assert 16 * (c as int / 16) + c as int % 16 == c as int;
  }

  lemma HexRoundTrip(n: nat)
    requires n < 16
    ensures HexValue(HexDigit(n)) == Some(n) && HexDigit(n) != '%'
  {
  }

  /** The path is printed as it is: nothing in it needs escaping, or its escaped form says so itself. */
  predicate PlainPath(t: Target) {
    if Encodes(t.rawPath, t.path) then t.rawPath == t.path else t.path == "*" || Plain(t.path, InPath)
  }

  lemma PlainPathExactly(t: Target)
    ensures EscapedPath(t) == t.path <==> PlainPath(t)
    ensures |EscapedPath(t)| >= |t.path|
    ensures t.path == "" ==> EscapedPath(t) == ""
  {
    hide Unescape, Plain, Escape, ValidEncodedPath;
    EscapeLengthens(t.path, InPath);
    UnescapeShortens(t.rawPath);
    assert Escape("", InPath) == "" by {
      EscapeLengthens("", InPath);
      PlainEmpty();
    }
  }

  lemma PlainEmpty()
    ensures Plain("", InPath)
  {
  }

  /** Nothing but the path is printed after the scheme. */
  predicate OnlyPath(t: Target) {
    t.opaq == "" && t.user.None? && t.host == "" && !t.forceQuery && t.rawQuery == "" && t.fragment == ""
  }

  /** The printed form after "scheme://" is the bare path exactly for a target that has nothing else and a path
      that needs no escaping. */
  lemma PrintsPathExactly(t: Target)
    requires t.opaq == ""
    ensures PrintedRest(t) == t.path <==> OnlyPath(t) && PlainPath(t)
  {
    hide Escape, PlainPath, EscapedPath;
    PlainPathExactly(t);
    EscapeLengthens(t.host, InHost);
    assert Escape("", InHost) == "" by {
      EmptyEscape(InHost);
    }
    var before := PrintedUser(t.user) + Escape(t.host, InHost);
    assert PrintedRest(t) == before + PrintedPath(t) + PrintedTail(t);
    assert |PrintedRest(t)| >= |before| + |EscapedPath(t)| + |PrintedTail(t)|;
    assert before == "" <==> t.user.None? && t.host == "";
    assert PrintedTail(t) == "" <==> !t.forceQuery && t.rawQuery == "" && t.fragment == "";
  }

  lemma EmptyEscape(mode: Mode)
    ensures Escape("", mode) == ""
  {
  }

  lemma EscapeHead(s: string, mode: Mode)
    requires ShouldEscape('/', mode) && s != ""
    ensures Escape(s, mode) != "" && Escape(s, mode)[0] != '/'
  {
  }

  /** Without a path, what follows "scheme://" never starts with a slash. */
  lemma NoPathNoSlash(t: Target)
    requires t.opaq == "" && t.path == ""
    ensures PrintedRest(t) != "" ==> PrintedRest(t)[0] != '/'
  {
    hide Escape, EscapedPath;
    PlainPathExactly(t);
    EmptyEscape(InHost);
    EmptyEscape(InUser);
    if t.user.Some? && t.user.value.name != "" {
      EscapeHead(t.user.value.name, InUser);
    }
    if t.host != "" {
      EscapeHead(t.host, InHost);
    }
  }

  // -------------------------------------------------------------- the printed parts

  lemma PlainEscape(s: string, mode: Mode)
    requires Plain(s, mode)
    ensures Escape(s, mode) == s
  {
    EscapeLengthens(s, mode);
  }

  /** User and password that need no escaping. */
  lemma UserInFull(name: string, password: string)
    requires Plain(name, InUser) && Plain(password, InUser)
    ensures PrintedUser(Some(User(name, Some(password)))) == name + ":" + password + "@"
    ensures PrintedUser(Some(User(name, None))) == name + "@"
    ensures PrintedUser(None) == ""
  {
    hide Escape;
    PlainEscape(name, InUser);
    PlainEscape(password, InUser);
  }

  /** A path without a leading slash gets one behind a host. */
  lemma PathInFull(t: Target)
    requires PlainPath(t)
    ensures PrintedPath(t) == if t.host != "" && t.path != "" && t.path[0] != '/' then "/" + t.path else t.path
  {
    hide PlainPath, EscapedPath;
    PlainPathExactly(t);
  }

  /** Query and fragment; a query may be empty and still be printed. */
  lemma TailInFull(t: Target)
    requires Plain(t.fragment, InFragment)
    ensures PrintedTail(t) == if t.rawQuery == "" && !t.forceQuery then (if t.fragment == "" then "" else "#" + t.fragment)
                              else if t.fragment == "" then "?" + t.rawQuery
                              else "?" + t.rawQuery + "#" + t.fragment
  {
    hide Escape;
    PlainEscape(t.fragment, InFragment);
    assert "?" + t.rawQuery + "#" + t.fragment == "?" + t.rawQuery + ("#" + t.fragment);
  }

  /** The parts in their order. */
  lemma PrintedInFull(t: Target)
    requires t.opaq == "" && Plain(t.host, InHost)
    ensures Printed(t) == t.scheme + "://" + PrintedUser(t.user) + t.host + PrintedPath(t) + PrintedTail(t)
  {
    hide Escape, PrintedUser, PrintedPath, PrintedTail;
    PlainEscape(t.host, InHost);
    assert t.scheme + ":" + "//" == t.scheme + "://";
  }

  /** An opaque part takes the place of user, host and path. */
  lemma OpaqueInFull(t: Target)
    requires t.opaq != ""
    ensures Printed(t) == t.scheme + ":" + t.opaq + PrintedTail(t)
  {
    assert t.scheme + ":" + "" == t.scheme + ":";
  }

  // ------------------------------------------------------------------ escaped forms

  /** Hexadecimal digits, small ones like capitals. */
  lemma HexInFull(c: char)
    ensures HexValue(c) == if '0' <= c <= '9' then Some(c as int - 48)
                           else if c in "aA" then Some(10) else if c in "bB" then Some(11) else if c in "cC" then Some(12)
                           else if c in "dD" then Some(13) else if c in "eE" then Some(14) else if c in "fF" then Some(15)
                           else None
  {
  }

  lemma {:induction false} UnescapePlain(s: string)
    requires '%' !in s
    ensures Unescape(s) == Some(s)
  {
    if s != "" {
      UnescapePlain(s[1..]);
      assert s == [s[0]] + s[1..];
    }
  }

  /** A text without percent signs encodes itself and nothing else, if it has valid characters only. */
  lemma PlainEncodesItself(s: string, path: string)
    requires '%' !in s
    ensures Encodes(s, path) <==> s != "" && s == path && (forall i :: 0 <= i < |s| ==> !ShouldEscape(s[i], InPath) || s[i] in "!'()*[]")
  {
    UnescapePlain(s);
    ValidCharacters(s);
    hide ShouldEscape, ValidEncodedPath, Unescape;
  }

  /** The characters that an escaped path may have. */
  lemma ValidCharacters(s: string)
    ensures ValidEncodedPath(s) <==> forall i :: 0 <= i < |s| ==> !ShouldEscape(s[i], InPath) || s[i] in "%!'()*[]"
  {
  }

  /** Escaping a path encodes it. */
  lemma EscapeEncodes(path: string)
    requires path != "" && forall i :: 0 <= i < |path| ==> path[i] < '\U{100}'
    ensures Encodes(Escape(path, InPath), path)
  {
    EscapeRoundTrip(path);
    EscapeValid(path);
    EscapeLengthens(path, InPath);
    hide Escape, ValidEncodedPath;
  }

  lemma {:induction false} EscapeValid(s: string)
    ensures ValidEncodedPath(Escape(s, InPath))
  {
    if s != "" {
      EscapeValid(s[1..]);
      hide Escape, ShouldEscape;
      EscapeStep(s);
      HexDigitPlain(s[0] as int / 16 % 16);
      HexDigitPlain(s[0] as int % 16);
      hide HexDigit;
    }
  }

  lemma HexDigitPlain(n: nat)
    requires n < 16
    ensures !ShouldEscape(HexDigit(n), InPath)
  {
  }

  /** A percent sign that no two hexadecimal digits follow encodes nothing. */
  lemma BadPercent(s: string)
    requires s != "" && s[0] == '%' && (|s| < 3 || HexValue(s[1]).None? || HexValue(s[2]).None?)
    ensures Unescape(s) == None
  {
  }
}
