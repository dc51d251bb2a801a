/** Header handling of the reverse proxy (reverseproxy.go): hop-by-hop fields are removed (sections 13.5.1
    and 14.10 of RFC 2616), and the rest is merged into the response. */
module ProxyHeaders {
  import opened Common
  import opened Strings
  import AcceptEncoding

  // --------------------------------------------------------------- canonical keys

  predicate IsToken(c: char) {
    'a' <= c <= 'z' || 'A' <= c <= 'Z' || '0' <= c <= '9' || c in "!#$%&'*+-.^_`|~"
  }

  /** A letter in canonical form: upper case at the start of a word, lower case elsewhere. */
  function CanonicalChar(start: bool, c: char): char {
    if start && 'a' <= c <= 'z' then (c as int - 32) as char
    else if !start && 'A' <= c <= 'Z' then (c as int + 32) as char
    else c
  }

  /** A word starts at this position. */
  predicate WordStart(s: string, i: nat)
    requires i < |s|
  {
    i == 0 || s[i - 1] == '-'
  }

  /** `http.CanonicalHeaderKey`; text that is not a token is left as it is. */
  function Canonical(s: string): string {
    if All(s, IsToken)
    then seq(|s|, i requires 0 <= i < |s| => CanonicalChar(WordStart(s, i), s[i]))
    else s
  }

  predicate CanonicalKeys(h: Fields) {
    forall k :: k in h ==> Canonical(k) == k
  }

  /** The characters from `i` on are in canonical form. */
  predicate CanonicalFrom(s: string, i: nat)
    requires i <= |s|
    decreases |s| - i
  {
    i == |s| || (IsToken(s[i]) && CanonicalChar(i == 0 || s[i - 1] == '-', s[i]) == s[i] && CanonicalFrom(s, i + 1))
  }

  lemma {:induction false} CanonicalFromAll(s: string, i: nat)
    requires i <= |s| && CanonicalFrom(s, i)
    ensures forall j :: i <= j < |s| ==> IsToken(s[j]) && CanonicalChar(j == 0 || s[j - 1] == '-', s[j]) == s[j]
    decreases |s| - i
  {
    if i < |s| {
      CanonicalFromAll(s, i + 1);
    }
  }

  const HOP_HEADERS := [
    "Alt-Svc", "Alternate-Protocol", "Connection", "Keep-Alive", "Proxy-Authenticate", "Proxy-Authorization",
    "Proxy-Connection", "Te", "Trailer", "Transfer-Encoding", "Upgrade"
  ]

  const SKIP_HEADERS := {
    "Content-Type", "Content-Disposition", "Accept-Ranges", "Set-Cookie", "Cache-Control", "Expires"
  }

  lemma HopNames1()
    ensures CanonicalFrom("Alt-Svc", 0)
    ensures CanonicalFrom("Connection", 0)
    ensures CanonicalFrom("Keep-Alive", 0)
    ensures CanonicalFrom("Te", 0)
  {
    assert CanonicalFrom("Connection", 4);
    assert CanonicalFrom("Keep-Alive", 4);
  }

  lemma HopNames2()
    ensures CanonicalFrom("Proxy-Connection", 0)
    ensures CanonicalFrom("Trailer", 0)
    ensures CanonicalFrom("Upgrade", 0)
  {
    assert CanonicalFrom("Proxy-Connection", 10);
    assert CanonicalFrom("Proxy-Connection", 4);
  }

  lemma HopNames3()
    ensures CanonicalFrom("Alternate-Protocol", 0)
    ensures CanonicalFrom("Transfer-Encoding", 0)
  {
    assert CanonicalFrom("Alternate-Protocol", 12);
    assert CanonicalFrom("Alternate-Protocol", 6);
    assert CanonicalFrom("Transfer-Encoding", 11);
    assert CanonicalFrom("Transfer-Encoding", 5);
  }

  lemma HopNames4()
    ensures CanonicalFrom("Proxy-Authenticate", 0)
    ensures CanonicalFrom("Proxy-Authorization", 0)
  {
    assert CanonicalFrom("Proxy-Authenticate", 12);
    assert CanonicalFrom("Proxy-Authenticate", 6);
    assert CanonicalFrom("Proxy-Authorization", 13);
    assert CanonicalFrom("Proxy-Authorization", 7);
    assert CanonicalFrom("Proxy-Authorization", 1);
  }

  /** The names in the list are canonical, so deleting them deletes exactly these keys. */
  lemma HopIsCanonical(i: nat)
    requires i < |HOP_HEADERS|
    ensures Canonical(HOP_HEADERS[i]) == HOP_HEADERS[i]
  {
    hide CanonicalFrom;
    HopNames1();
    HopNames2();
    HopNames3();
    HopNames4();
    CanonicalFromAll(HOP_HEADERS[i], 0);
    hide HOP_HEADERS, IsToken, CanonicalChar;
  }

  // ------------------------------------------------------------------ header objects

  class Header {
    var fields: Fields

    constructor (fields: Fields)
      ensures this.fields == fields
    {
      this.fields := fields;
    }

    method Del(key: string)
      modifies this
      ensures fields == old(fields) - {Canonical(key)}
    {
      fields := fields - {Canonical(key)};
    }

    method Add(key: string, value: string)
      modifies this
      ensures fields == Appended(old(fields), Canonical(key), [value])
    {
      var k := Canonical(key);
      fields := fields[k := (if k in fields then fields[k] else []) + [value]];
    }
  }

  /** Values added one after the other. Adding no value creates no key. */
  function Appended(h: Fields, k: string, values: seq<string>): Fields {
    if values == [] then h else h[k := (if k in h then h[k] else []) + values]
  }

  // ------------------------------------------------------------- hop-by-hop fields

  /** The names listed in a Connection value, in canonical form. */
  function Named(parts: seq<string>): set<string> {
    set i | 0 <= i < |parts| && Trim(parts[i], AcceptEncoding.IsSpace) != ""
      :: Canonical(Trim(parts[i], AcceptEncoding.IsSpace))
  }

  /** The fields named by the response's Connection header: its first line only. */
  function ConnectionNames(h: Fields): set<string> {
    if Get(h, "Connection") == "" then {} else Named(Split(Get(h, "Connection"), ','))
  }

  function HopNames(n: nat): set<string>
    requires n <= |HOP_HEADERS|
  {
    set i | 0 <= i < n :: HOP_HEADERS[i]
  }

  /** What is left of a response header for the client. */
  function Stripped(h: Fields): Fields {
    h - (ConnectionNames(h) + HopNames(|HOP_HEADERS|))
  }

  lemma NamedStep(parts: seq<string>, n: nat)
    requires n < |parts|
    ensures Named(parts[..n + 1]) == Named(parts[..n])
              + var f := Trim(parts[n], AcceptEncoding.IsSpace); if f != "" then {Canonical(f)} else {}
  {
    hide Trim, Canonical;
    var before, after := parts[..n], parts[..n + 1];
    assert after[n] == parts[n];
    assert forall i :: 0 <= i < n ==> after[i] == before[i];
  }

  /** The first deletion loop of `ServeHTTP`: the names in the Connection header. */
  method RemoveConnectionNames(res: Header)
    modifies res
    ensures res.fields == old(res.fields) - ConnectionNames(old(res.fields))
  {
    hide Trim, Canonical, Split;
    ghost var h := res.fields;
    var c := Get(res.fields, "Connection");
    if c != "" {
      var parts := Split(c, ',');
      for n := 0 to |parts|
        invariant res.fields == h - Named(parts[..n])
      {
        NamedStep(parts, n);
        var f := Trim(parts[n], AcceptEncoding.IsSpace);
        if f != "" {
          res.Del(f);
        }
      }
      assert parts[..|parts|] == parts;
    }
  }

  /** Both deletion loops of `ServeHTTP`. */
  method RemoveHopByHop(res: Header)
    modifies res
    ensures res.fields == Stripped(old(res.fields))
  {
    hide Canonical, ConnectionNames;
    RemoveConnectionNames(res);
    ghost var h := res.fields;
    for n := 0 to |HOP_HEADERS|
      invariant res.fields == h - HopNames(n)
    {
      HopIsCanonical(n);
      assert HopNames(n + 1) == HopNames(n) + {HOP_HEADERS[n]};
      res.Del(HOP_HEADERS[n]);
    }
  }

  // ------------------------------------------------------------------------ merging

  /** A field that is skipped when the response already has it. */
  predicate Predefined(k: string) {
    k in SKIP_HEADERS
  }

  /** A destination field survives the merge unless it is overwritten. */
  predicate Kept(dst: Fields, src: Fields, k: string) {
    k in dst && (k !in src || Predefined(k) || k == "Server")
  }

  /** The closed form of `copyHeader`. */
  function Merged(dst: Fields, src: Fields): Fields {
    map k | k in dst.Keys + src.Keys && (Kept(dst, src, k) || (k in src && src[k] != [])) :: MergedValue(dst, src, k)
  }

  function MergedValue(dst: Fields, src: Fields, k: string): seq<string>
    requires k in dst || k in src
  {
    if k in dst && (k !in src || Predefined(k)) then dst[k]
    else if k in dst && k == "Server" then dst[k] + src[k]
    else src[k]
  }

  /** One turn of the loop of `copyHeader`. */
  function Turn(dst: Fields, k: string, values: seq<string>): Fields {
    if k in dst && Predefined(k) then dst
    else Appended(if k in dst && k != "Server" then dst - {k} else dst, k, values)
  }

  lemma MergeStepAt(dst: Fields, src: Fields, k: string, values: seq<string>, x: string)
    requires k !in src
    ensures var t, m := Turn(Merged(dst, src), k, values), Merged(dst, src[k := values]);
            (x in t <==> x in m) && (x in t ==> t[x] == m[x])
  {
    hide Predefined;
    var m := Merged(dst, src);
    assert k in m <==> k in dst;
    if x == k {
      assert k in dst ==> m[k] == dst[k];
    } else {
      assert x in Turn(m, k, values) <==> x in m;
    }
  }

  /** One more key of the source is merged, whichever key it is. */
  lemma MergeStep(dst: Fields, src: Fields, k: string, values: seq<string>)
    requires k !in src
    ensures Turn(Merged(dst, src), k, values) == Merged(dst, src[k := values])
  {
    hide Merged, Turn;
    forall x {
      MergeStepAt(dst, src, k, values, x);
    }
  }

  lemma AppendedTwice(h: Fields, k: string, values: seq<string>, v: string)
    ensures Appended(Appended(h, k, values), k, [v]) == Appended(h, k, values + [v])
  {
    var had := if k in h then h[k] else [];
    assert had + values + [v] == had + (values + [v]);
    assert values == [] ==> values + [v] == [v];
  }

  /** `copyHeader`. The keys come in any order; the result does not depend on it. */
  method CopyHeader(dst: Header, src: Header)
    requires dst != src && CanonicalKeys(src.fields)
    modifies dst
    ensures dst.fields == Merged(old(dst.fields), src.fields)
  {
    hide Canonical, Merged;
    var keys := src.fields.Keys;
    ghost var done: Fields := map[];
    NothingMerged(dst.fields);
    while keys != {}
      invariant keys !! done.Keys && keys + done.Keys == src.fields.Keys
      invariant forall k :: k in done ==> done[k] == src.fields[k]
      invariant dst.fields == Merged(old(dst.fields), done)
    {
      var k :| k in keys;
      MergeStep(old(dst.fields), done, k, src.fields[k]);
      TurnOnce(dst, k, src.fields[k]);
      keys, done := keys - {k}, done[k := src.fields[k]];
    }
    assert done == src.fields;
  }

  method TurnOnce(dst: Header, k: string, values: seq<string>)
    requires Canonical(k) == k
    modifies dst
    ensures dst.fields == Turn(old(dst.fields), k, values)
  {
    hide Canonical;
    if k in dst.fields {
      if Predefined(k) {
        return;
      }
      if k != "Server" {
        dst.Del(k);
      }
    }
    ghost var h := dst.fields;
    for i := 0 to |values|
      invariant dst.fields == Appended(h, k, values[..i])
    {
      assert values[..i + 1] == values[..i] + [values[i]];
      AppendedTwice(h, k, values[..i], values[i]);
      dst.Add(k, values[i]);
    }
    assert values[..|values|] == values;
  }

  lemma NothingMerged(dst: Fields)
    ensures Merged(dst, map[]) == dst
  {
  }

  /** The response header that the client gets. */
  function Forwarded(rw: Fields, res: Fields): Fields {
    Merged(rw, Stripped(res))
  }

  /** The header part of `ServeHTTP`. */
  method ForwardHeader(rw: Header, res: Header)
    requires rw != res && CanonicalKeys(res.fields)
    modifies rw, res
    ensures rw.fields == Forwarded(old(rw.fields), old(res.fields))
  {
    hide Canonical, Merged, HopNames, ConnectionNames;
    RemoveHopByHop(res);
    CopyHeader(rw, res);
  }

  predicate HopByHop(res: Fields, k: string) {
    k in ConnectionNames(res) || k in HOP_HEADERS
  }

  lemma PredefinedNames(k: string)
    ensures Predefined(k) <==>
            k in {"Content-Type", "Content-Disposition", "Accept-Ranges", "Set-Cookie", "Cache-Control", "Expires"}
  {
  }

  /** What that means field by field: hop-by-hop fields of the backend never reach the client, predefined
      fields that the response already has are kept, Server values accumulate, and any other field of
      the backend that has a value replaces the one that was there. */
  lemma ForwardedFields(rw: Fields, res: Fields, k: string)
    ensures var out := Forwarded(rw, res);
            var had, got := k in rw, k in res && !HopByHop(res, k);
            if !got then (k in out <==> had) && (had ==> out[k] == rw[k])
            else if had && k in {"Content-Type", "Content-Disposition", "Accept-Ranges", "Set-Cookie", "Cache-Control", "Expires"} then k in out && out[k] == rw[k]
            else if had && k == "Server" then k in out && out[k] == rw[k] + res[k]
            else (k in out <==> res[k] != []) && (res[k] != [] ==> out[k] == res[k])
  {
    PredefinedNames(k);
    hide ConnectionNames, Predefined;
    assert k in HopNames(|HOP_HEADERS|) <==> k in HOP_HEADERS;
    hide HOP_HEADERS;
  }

  /** The fixed list by its names: none of these fields is forwarded, and every other one that no Connection line
      names is. */
  lemma HopFieldsInFull(res: Fields, k: string)
    ensures k in Stripped(res) <==>
            && k in res && k !in ConnectionNames(res)
            && k !in {"Alt-Svc", "Alternate-Protocol", "Connection", "Keep-Alive", "Proxy-Authenticate",
                      "Proxy-Authorization", "Proxy-Connection", "Te", "Trailer", "Transfer-Encoding", "Upgrade"}
  {
    hide ConnectionNames;
    assert k in HopNames(|HOP_HEADERS|) <==> k in HOP_HEADERS;
  }

  // ------------------------------------------------------- names in a Connection line

  /** Letters, digits and hyphens, of which header names are made. */
  predicate IsName(s: string) {
    s != "" && forall i :: 0 <= i < |s| ==> 'a' <= s[i] <= 'z' || 'A' <= s[i] <= 'Z' || '0' <= s[i] <= '9' || s[i] == '-'
  }

  /** In canonical form a name has a capital at the start of each word and small letters elsewhere, and stays the same
      but for case. */
  lemma CanonicalWords(s: string, i: nat)
    requires IsName(s) && i < |s|
    ensures |Canonical(s)| == |s|
    ensures var c := Canonical(s)[i];
            && (if i == 0 || s[i - 1] == '-' then !('a' <= c <= 'z') else !('A' <= c <= 'Z'))
            && (c == s[i] || (c as int == s[i] as int + 32 && 'A' <= s[i] <= 'Z')
                || (c as int == s[i] as int - 32 && 'a' <= s[i] <= 'z'))
  {
    hide IsToken, CanonicalChar, Canonical, All, IsName;
    NamesAreTokens(s);
    CanonicalAt(s, i);
    LetterCase(WordStart(s, i), s[i]);
  }

  lemma CanonicalLength(s: string)
    ensures |Canonical(s)| == |s|
  {
  }

  lemma CanonicalAt(s: string, i: nat)
    requires All(s, IsToken) && i < |s|
    ensures |Canonical(s)| == |s| && Canonical(s)[i] == CanonicalChar(WordStart(s, i), s[i])
  {
    hide IsToken, CanonicalChar, All, WordStart;
  }

  lemma LetterCase(start: bool, c: char)
    ensures var d := CanonicalChar(start, c);
            && (if start then !('a' <= d <= 'z') else !('A' <= d <= 'Z'))
            && (d == c || (d as int == c as int + 32 && 'A' <= c <= 'Z') || (d as int == c as int - 32 && 'a' <= c <= 'z'))
  {
  }

  lemma SameLetter(start: bool, c: char, d: char)
    requires c == d || (c as int == d as int + 32 && 'A' <= d <= 'Z') || (c as int == d as int - 32 && 'a' <= d <= 'z')
    ensures CanonicalChar(start, c) == CanonicalChar(start, d)
    ensures c == '-' <==> d == '-'
  {
  }

  lemma NameCharacter(c: char)
    requires 'a' <= c <= 'z' || 'A' <= c <= 'Z' || '0' <= c <= '9' || c == '-'
    ensures IsToken(c)
  {
  }

  lemma NamesAreTokens(s: string)
    requires IsName(s)
    ensures All(s, IsToken)
  {
    hide IsToken;
    forall i | 0 <= i < |s| ensures IsToken(s[i]) {
      NameCharacter(s[i]);
    }
  }

  /** Equal but for the case of letters. */
  predicate SameButCase(s: string, t: string) {
    |s| == |t| && forall i :: 0 <= i < |s| ==>
      || s[i] == t[i]
      || (s[i] as int == t[i] as int + 32 && 'A' <= t[i] <= 'Z')
      || (s[i] as int == t[i] as int - 32 && 'a' <= t[i] <= 'z')
  }

  /** Case does not matter. */
  lemma CanonicalIgnoresCase(s: string, t: string)
    requires IsName(s) && IsName(t) && SameButCase(s, t)
    ensures Canonical(s) == Canonical(t)
  {
    hide IsToken, CanonicalChar, Canonical, All, IsName;
    NamesAreTokens(s);
    NamesAreTokens(t);
    CanonicalLength(s);
    CanonicalLength(t);
    forall i | 0 <= i < |s| ensures Canonical(s)[i] == Canonical(t)[i] {
      CanonicalAt(s, i);
      CanonicalAt(t, i);
      SameLetter(WordStart(s, i), s[i], t[i]);
      if i > 0 {
        SameLetter(true, s[i - 1], t[i - 1]);
      }
    }
  }

  /** One name of a Connection line, with padding. */
  datatype Listed = Listed(pre: string, name: string, post: string) {
    function Text(): string {
      pre + name + post
    }

    predicate Valid() {
      IsName(name) && AcceptEncoding.Blank(pre) && AcceptEncoding.Blank(post) && ',' !in pre && ',' !in post
    }
  }

  function ListedTexts(names: seq<Listed>): seq<string> {
    seq(|names|, i requires 0 <= i < |names| => names[i].Text())
  }

  lemma ListedTrims(l: Listed)
    requires l.Valid()
    ensures Trim(l.Text(), AcceptEncoding.IsSpace) == l.name && ',' !in l.Text()
  {
    TrimPadded(l.pre, l.name, l.post, AcceptEncoding.IsSpace);
    hide Trim;
  }

  /** A first line that lists names, in any case and with any padding, removes exactly the fields with these names,
      besides the fixed ones. */
  lemma ListedFieldsRemoved(res: Fields, names: seq<Listed>)
    requires names != [] && forall i :: 0 <= i < |names| ==> names[i].Valid()
    requires Get(res, "Connection") == Join(ListedTexts(names), ',')
    ensures ConnectionNames(res) == set i | 0 <= i < |names| :: Canonical(names[i].name)
    ensures forall i, k :: 0 <= i < |names| && IsName(k) && Canonical(k) == k && SameButCase(k, names[i].name) ==>
              k !in Stripped(res)
  {
    hide Trim, Split, Join, Canonical, Listed.Text, Listed.Valid, HopNames;
    var texts := ListedTexts(names);
    forall i | 0 <= i < |names|
      ensures Trim(texts[i], AcceptEncoding.IsSpace) == names[i].name && ',' !in texts[i] && IsName(names[i].name)
    {
      ListedTrims(names[i]);
      ValidIsName(names[i]);
    }
    JoinSplit(texts, ',');
    JoinedNotEmpty(texts);
    assert ConnectionNames(res) == Named(texts);
    forall i, k | 0 <= i < |names| && IsName(k) && Canonical(k) == k && SameButCase(k, names[i].name)
      ensures k !in Stripped(res)
    {
      CanonicalIgnoresCase(k, names[i].name);
      assert Canonical(names[i].name) in ConnectionNames(res);
    }
  }

  lemma ValidIsName(l: Listed)
    requires l.Valid()
    ensures IsName(l.name)
  {
  }

  lemma JoinedNotEmpty(texts: seq<string>)
    requires texts != [] && Trim(texts[0], AcceptEncoding.IsSpace) != ""
    ensures Join(texts, ',') != ""
  {
    assert texts[0] != "";
  }

  /** The fields that section 14.10 of RFC 2616 makes hop-by-hop: those named in any Connection line. */
  function AllNames(h: Fields): set<string> {
    if "Connection" in h then
      var lines := h["Connection"];
      set i, k | 0 <= i < |lines| && k in Named(Split(lines[i], ',')) :: k
    else {}
  }

  /** Every field that the Connection lines name is removed if and only if those of them that the response has
      are named in the first line or in the fixed list. */
  lemma NamedFieldsRemovedExactly(res: Fields)
    ensures AllNames(res) !! Stripped(res).Keys <==>
            AllNames(res) * res.Keys <= ConnectionNames(res) + HopNames(|HOP_HEADERS|)
  {
    hide AllNames, ConnectionNames, HopNames;
    assert Stripped(res).Keys == res.Keys - (ConnectionNames(res) + HopNames(|HOP_HEADERS|));
  }

  lemma NothingNamesNothing()
    ensures Named(Split("", ',')) == {}
  {
  }

  lemma OneLineNamesAll(res: Fields)
    requires "Connection" in res ==> |res["Connection"]| <= 1
    ensures AllNames(res) == ConnectionNames(res)
  {
    NothingNamesNothing();
    hide Named, Split;
    if "Connection" in res && res["Connection"] != [] {
      var lines := res["Connection"];
      assert lines == [lines[0]];
    }
  }

  /** With a single Connection line the condition holds. */
  lemma OneLineSuffices(res: Fields)
    requires "Connection" in res ==> |res["Connection"]| <= 1
    ensures AllNames(res) !! Stripped(res).Keys
  {
    hide AllNames, ConnectionNames, HopNames, Stripped;
    OneLineNamesAll(res);
    NamedFieldsRemovedExactly(res);
  }

  /** What the client sees: unless the proxy itself has set them, no named field reaches it, if and only if the
      named fields that carry a value are named in the first line or in the fixed list. */
  lemma NamedFieldsWithheldExactly(rw: Fields, res: Fields)
    requires rw.Keys !! AllNames(res)
    ensures Forwarded(rw, res).Keys !! AllNames(res) <==>
            forall k :: k in AllNames(res) && k in res && res[k] != [] ==> HopByHop(res, k)
  {
    hide AllNames, Forwarded, HopByHop;
    forall k | k in AllNames(res)
      ensures k in Forwarded(rw, res) <==> k in res && !HopByHop(res, k) && res[k] != []
    {
      ForwardedFields(rw, res, k);
    }
  }

  /** The condition fails for a field that only a second line names: it is forwarded. */
  lemma SecondConnectionLineIgnored(rw: Fields, first: string, second: string, value: string)
    requires first != "" && "X-Hop" !in Named(Split(first, ',')) && "X-Hop" in Named(Split(second, ','))
    ensures var res := map["Connection" := [first, second], "X-Hop" := [value]];
            var out := Forwarded(rw, res);
            "X-Hop" in AllNames(res) && "X-Hop" in out && out["X-Hop"] == [value]
  {
    hide Named, Split;
    var res := map["Connection" := [first, second], "X-Hop" := [value]];
    ForwardedFields(rw, res, "X-Hop");
    assert ConnectionNames(res) == Named(Split(first, ','));
    assert res["Connection"][1] == second;
    hide Forwarded;
  }

  /** For example with the lines "Upgrade" and "X-Hop". */
  lemma SuchLinesExist()
    ensures "X-Hop" !in Named(Split("Upgrade", ',')) && "X-Hop" in Named(Split("X-Hop", ','))
  {
    hide Split, Trim, Canonical;
    SplitOne("Upgrade", ',');
    SplitOne("X-Hop", ',');
    TrimmedLines();
    CanonicalLines();
    assert ["X-Hop"][0] == "X-Hop";
  }

  lemma TrimmedLines()
    ensures Trim("Upgrade", AcceptEncoding.IsSpace) == "Upgrade" && Trim("X-Hop", AcceptEncoding.IsSpace) == "X-Hop"
  {
    hide Trim;
    Untrimmed("Upgrade");
    Untrimmed("X-Hop");
  }

  lemma Untrimmed(s: string)
    requires s != "" && !AcceptEncoding.IsSpace(s[0]) && !AcceptEncoding.IsSpace(s[|s| - 1])
    ensures Trim(s, AcceptEncoding.IsSpace) == s
  {
  }

  lemma CanonicalLines()
    ensures Canonical("X-Hop") == "X-Hop" && Canonical("Upgrade") != "X-Hop"
  {
    assert |Canonical("Upgrade")| == |"Upgrade"|;
    hide IsToken;
    CanonicalName();
    CanonicalFromAll("X-Hop", 0);
  }

  lemma CanonicalName()
    ensures CanonicalFrom("X-Hop", 0)
  {
    assert CanonicalFrom("X-Hop", 2);
  }
}
