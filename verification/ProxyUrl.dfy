/** The URL director of `NewSingleHostReverseProxy` (reverseproxy.go). */
module ProxyUrl {
  import opened Common
  import opened Strings
  import opened TargetUrl

  /** The parts of a request's URL that the director reads or writes. */
  datatype Url = Url(scheme: string, host: string, opaq: string, path: string, rawPath: string, rawQuery: string)

  /** `singleJoiningSlash`. */
  function SingleJoiningSlash(a: string, b: string): string {
    var aslash, bslash := HasSuffix(a, "/"), HasPrefix(b, "/");
    if aslash && bslash then a + b[1..]
    else if !aslash && !bslash && b != "" then a + "/" + b
    else a + b
  }

  function Prefer(val: string, def: string): string {
    if val != "" then val else def
  }

  /** The request URL after the `without` prefix is removed. */
  function Without(req: Url, without: string): Url {
    if without == "" then req
    else req.(path := TrimPrefix(req.path, without),
              opaq := TrimPrefix(req.opaq, without),
              rawPath := TrimPrefix(req.rawPath, without))
  }

  /** What a joined path loses at its start: for a unix target what follows "unix://" in its printed form. The
      slice panics if that form is shorter. */
  function SocketPrefix(t: Target): Option<string> {
    if t.scheme != "unix" then Some("")
    else if |Printed(t)| < |"unix://"| then None
    else Some(Printed(t)[|"unix://"|..])
  }

  /** Joining with the target, then trimming the socket path. */
  function Rewritten(prefix: string, a: string, b: string): string {
    TrimPrefix(SingleJoiningSlash(a, b), prefix)
  }

  function MergedQuery(target: string, request: string): string {
    if target == "" || request == "" then target + request else target + "&" + request
  }

  /** The directed URL, given the socket prefix. */
  function DirectedBy(t: Target, prefix: string, without: string, req: Url): Url {
    var r, unix := Without(req, without), t.scheme == "unix";
    Url(if unix then "http" else t.scheme,
        if unix then "socket" else t.host,
        if r.opaq != "" || t.opaq != "" then Rewritten(prefix, Prefer(t.opaq, t.path), Prefer(r.opaq, r.path)) else "",
        Rewritten(prefix, t.path, r.path),
        if r.rawPath != "" || t.rawPath != "" then Rewritten(prefix, Prefer(t.rawPath, t.path), Prefer(r.rawPath, r.path)) else "",
        MergedQuery(t.rawQuery, r.rawQuery))
  }

  /** The directed URL, or nothing if the director panics. */
  function Directed(t: Target, without: string, req: Url): Option<Url> {
    match SocketPrefix(t)
    case None => None
    case Some(prefix) => Some(DirectedBy(t, prefix, without, req))
  }

  /** The request whose URL the director rewrites. */
  class Request {
    var url: Url

    constructor (url: Url)
      ensures this.url == url
    {
      this.url := url;
    }

    /** The part of the director that removes the `without` prefix. */
    method RemoveWithout(without: string)
      modifies this
      ensures url == Without(old(url), without)
    {
      hide TrimPrefix;
      if without != "" {
        url := url.(path := TrimPrefix(url.path, without));
        if url.opaq != "" {
          url := url.(opaq := TrimPrefix(url.opaq, without));
        }
        if url.rawPath != "" {
          url := url.(rawPath := TrimPrefix(url.rawPath, without));
        }
        EmptyTrim(without);
      }
    }

    /** The part that trims the path of the socket. */
    method TrimSocket(prefix: string)
      modifies this
      ensures url == old(url).(path := TrimPrefix(old(url).path, prefix), opaq := TrimPrefix(old(url).opaq, prefix),
                               rawPath := TrimPrefix(old(url).rawPath, prefix))
    {
      hide TrimPrefix;
      url := url.(path := TrimPrefix(url.path, prefix));
      if url.opaq != "" {
        url := url.(opaq := TrimPrefix(url.opaq, prefix));
      }
      if url.rawPath != "" {
        url := url.(rawPath := TrimPrefix(url.rawPath, prefix));
      }
      EmptyTrim(prefix);
    }

    /** The director. It fails where the source panics. */
    method Direct(t: Target, without: string) returns (ok: bool)
      modifies this
      ensures ok <==> Directed(t, without, old(url)).Some?
      ensures ok ==> url == Directed(t, without, old(url)).value
    {
      hide SingleJoiningSlash, TrimPrefix, Prefer, Printed;
      if t.scheme == "unix" {
        url := url.(scheme := "http", host := "socket");
      } else {
        url := url.(scheme := t.scheme, host := t.host);
      }
      RemoveWithout(without);
      if url.opaq != "" || t.opaq != "" {
        url := url.(opaq := SingleJoiningSlash(Prefer(t.opaq, t.path), Prefer(url.opaq, url.path)));
      }
      if url.rawPath != "" || t.rawPath != "" {
        url := url.(rawPath := SingleJoiningSlash(Prefer(t.rawPath, t.path), Prefer(url.rawPath, url.path)));
      }
      url := url.(path := SingleJoiningSlash(t.path, url.path));
      if t.scheme == "unix" {
        var target := Printed(t);
        if |target| < |"unix://"| {
          return false;
        }
        TrimSocket(target[|"unix://"|..]);
        EmptyTrim(target[|"unix://"|..]);
      } else {
        NothingTrimmed(url);
      }
      if t.rawQuery == "" || url.rawQuery == "" {
        url := url.(rawQuery := t.rawQuery + url.rawQuery);
      } else {
        url := url.(rawQuery := t.rawQuery + "&" + url.rawQuery);
      }
      return true;
    }
  }

  lemma NothingTrimmed(url: Url)
    ensures TrimPrefix(url.path, "") == url.path
    ensures TrimPrefix(url.opaq, "") == url.opaq
    ensures TrimPrefix(url.rawPath, "") == url.rawPath
  {
  }

  lemma EmptyTrim(prefix: string)
    ensures TrimPrefix("", prefix) == ""
  {
  }

  // ------------------------------------------------------------------------ paths

  /** A text without one slash at its end, or at its start. */
  function NoEndSlash(a: string): string {
    if HasSuffix(a, "/") then a[..|a| - 1] else a
  }

  /** Joining puts exactly one slash at the seam, so "/base" and "/dir" give "/base/dir"; joining nothing
      changes nothing. */
  lemma JoinSeam(a: string, b: string)
    ensures SingleJoiningSlash(a, b) == if b == "" then a else NoEndSlash(a) + "/" + TrimPrefix(b, "/")
  {
    if HasSuffix(a, "/") {
      assert a == a[..|a| - 1] + "/";
    }
    if HasPrefix(b, "/") {
      assert b == "/" + b[1..];
    }
  }

  /** A text without a prefix that it has. */
  function Cut(s: string, prefix: string): string {
    if prefix <= s then s[|prefix|..] else s
  }

  /** Two paths with one slash between them, or the first alone if there is no second. */
  function OneSlash(a: string, b: string): string {
    if b == "" then a else NoEndSlash(a) + "/" + Cut(b, "/")
  }

  /** Where a request goes, part by part, whatever the target. An ordinary target gives scheme and host; a unix target
      has them faked. The path is the target's followed by the request's. Escaped path and opaque part are set if
      either side has one, and then the path stands in on the other side. */
  lemma DirectedParts(t: Target, without: string, req: Url)
    requires Directed(t, without, req).Some?
    ensures var out := Directed(t, without, req).value;
            var path, rawPath, opaq := Cut(req.path, without), Cut(req.rawPath, without), Cut(req.opaq, without);
            var socket := if t.scheme == "unix" then SocketPrefix(t).value else "";
            && out.scheme == (if t.scheme == "unix" then "http" else t.scheme)
            && out.host == (if t.scheme == "unix" then "socket" else t.host)
            && out.path == Cut(OneSlash(t.path, path), socket)
            && out.rawPath == (if rawPath == "" && t.rawPath == "" then ""
                               else Cut(OneSlash(if t.rawPath == "" then t.path else t.rawPath,
                                                 if rawPath == "" then path else rawPath), socket))
            && out.opaq == (if opaq == "" && t.opaq == "" then ""
                            else Cut(OneSlash(if t.opaq == "" then t.path else t.opaq,
                                              if opaq == "" then path else opaq), socket))
  {
    hide Printed;
    CutWithout(req, without);
    var r := Without(req, without);
    var prefix := SocketPrefix(t).value;
    assert t.scheme != "unix" ==> prefix == "";
    hide SocketPrefix, Without, Rewritten, Cut, OneSlash;
    RewrittenIs(prefix, t.path, r.path);
    RewrittenIs(prefix, Prefer(t.rawPath, t.path), Prefer(r.rawPath, r.path));
    RewrittenIs(prefix, Prefer(t.opaq, t.path), Prefer(r.opaq, r.path));
  }

  lemma CutWithout(req: Url, without: string)
    ensures var r := Without(req, without);
            r.path == Cut(req.path, without) && r.rawPath == Cut(req.rawPath, without) && r.opaq == Cut(req.opaq, without)
  {
  }

  lemma RewrittenIs(prefix: string, a: string, b: string)
    ensures Rewritten(prefix, a, b) == Cut(OneSlash(a, b), prefix)
  {
    JoinSeam(a, b);
    hide SingleJoiningSlash, NoEndSlash;
  }

  /** An ordinary target never panics, so every request is directed. */
  lemma OrdinaryAlwaysDirected(t: Target, without: string, req: Url)
    requires t.scheme != "unix"
    ensures Directed(t, without, req).Some?
  {
  }

  /** Removing `without` and joining with the target "/": "/api/messages" without "/api" is "/messages". */
  lemma WithoutRemoved(t: Target, without: string, req: Url, rest: string)
    requires t.scheme != "unix" && t.path == "/"
    requires req.path == without + rest && rest != "" && rest[0] == '/'
    ensures Directed(t, without, req).Some? && Directed(t, without, req).value.path == rest
  {
    assert without == "" ==> req.path == rest;
    assert (without + rest)[|without|..] == rest;
    assert "/" + rest[1..] == rest;
  }

  // ----------------------------------------------------------------- unix targets

  /** A path with a leading slash, unless it is empty. */
  function Slashed(p: string): string {
    if p == "" || p[0] == '/' then p else "/" + p
  }

  /** For a target path without a trailing slash, joining is concatenation; otherwise two slashes become one. */
  lemma JoinSlashed(base: string, p: string)
    ensures SingleJoiningSlash(base, p) ==
            if HasSuffix(base, "/") && p != "" then base + Slashed(p)[1..] else base + Slashed(p)
  {
    hide HasSuffix;
    assert base + "/" + p == base + ("/" + p);
    assert ("/" + p)[1..] == p;
  }

  /** What is trimmed is exactly what was joined, or nothing. */
  predicate Cancels(prefix: string, base: string) {
    if base == "" then prefix == "" || prefix[0] != '/' else prefix == base && !HasSuffix(base, "/")
  }

  /** Joining with `base` and trimming `prefix` keeps every path if and only if the two cancel each other. */
  lemma CancelsExactly(prefix: string, base: string)
    ensures (forall p :: Rewritten(prefix, base, p) == Slashed(p)) <==> Cancels(prefix, base)
  {
    if Cancels(prefix, base) {
      forall p ensures Rewritten(prefix, base, p) == Slashed(p) {
        Cancelled(prefix, base, p);
      }
    } else if base == "" {
      JoinSlashed(base, prefix);
      assert base + prefix == prefix;
      assert Rewritten(prefix, base, prefix) == "";
    } else if prefix != base {
      JoinSlashed(base, "");
      assert base + "" == base;
      assert Rewritten(prefix, base, "") != "";
    } else {
      SlashSwallowed(base, "x");
      assert Rewritten(prefix, base, "/x") != "/x";
    }
  }

  lemma Cancelled(prefix: string, base: string, p: string)
    requires Cancels(prefix, base)
    ensures Rewritten(prefix, base, p) == Slashed(p)
  {
    JoinSlashed(base, p);
    assert base == "" ==> base + Slashed(p) == Slashed(p);
    assert (base + Slashed(p))[|base|..] == Slashed(p);
  }

  lemma SlashSwallowed(base: string, rest: string)
    requires HasSuffix(base, "/")
    ensures Rewritten(base, base, "/" + rest) == rest
  {
    JoinSlashed(base, "/" + rest);
    assert ("/" + rest)[1..] == rest && (base + rest)[|base|..] == rest;
  }

  /** The condition on a unix target, by its own fields. One with an opaque part ("unix:name") loses its first
      two characters in place of the slashes. */
  predicate PassesThrough(t: Target) {
    if t.opaq != "" then |PrintedRest(t)| >= 2 && Cancels(PrintedRest(t)[2..], t.path)
    else t.path == "" || (OnlyPath(t) && PlainPath(t) && !HasSuffix(t.path, "/"))
  }

  /** What the director trims for a unix target. */
  lemma SocketPrefixIs(t: Target)
    requires t.scheme == "unix"
    ensures SocketPrefix(t) == if t.opaq == "" then Some(PrintedRest(t))
                               else if |PrintedRest(t)| < 2 then None else Some(PrintedRest(t)[2..])
  {
    hide PrintedRest;
    var rest := PrintedRest(t);
    assert Printed(t) == "unix" + ":" + (if t.opaq != "" then "" else "//") + rest;
    if t.opaq == "" {
      assert Printed(t) == "unix://" + rest;
      assert ("unix://" + rest)[|"unix://"|..] == rest;
    } else if |rest| >= 2 {
      assert Printed(t) == "unix:" + rest;
      assert ("unix:" + rest)[|"unix://"|..] == rest[2..];
    }
  }

  lemma PassesThroughCancels(t: Target)
    requires t.scheme == "unix"
    ensures PassesThrough(t) <==> SocketPrefix(t).Some? && Cancels(SocketPrefix(t).value, t.path)
  {
    hide PrintedRest, OnlyPath, PlainPath, SocketPrefix;
    SocketPrefixIs(t);
    if t.opaq == "" {
      PrintsPathExactly(t);
      if t.path == "" {
        NoPathNoSlash(t);
      }
    }
  }

  /** The request's path comes through, with a leading slash if it had none. */
  predicate PathKept(t: Target, without: string, req: Url) {
    Directed(t, without, req).Some? && Directed(t, without, req).value.path == Slashed(Without(req, without).path)
  }

  /** The condition is exact: every request path reaches a unix-socket backend unchanged if and only if the
      target has no path, or it has nothing but a path that needs no escaping and does not end in a slash. */
  lemma UnixPathIdentityExactly(t: Target)
    requires t.scheme == "unix"
    ensures (forall without, req :: PathKept(t, without, req)) <==> PassesThrough(t)
  {
    hide PassesThrough, Cancels, SocketPrefix, Rewritten, TrimPrefix;
    PassesThroughCancels(t);
    match SocketPrefix(t)
    case None =>
      assert !PathKept(t, "", Url("", "", "", "", "", ""));
    case Some(prefix) =>
      CancelsExactly(prefix, t.path);
      if p :| Rewritten(prefix, t.path, p) != Slashed(p) {
        assert !PathKept(t, "", Url("", "", "", p, "", ""));
      }
  }

  /** For such a target without an opaque part, and with no escaped form other than the path, the whole request
      URL comes through once the `without` prefix is removed: path, escaped path and opaque part. */
  lemma UnixUrlKept(t: Target, without: string, req: Url)
    requires t.scheme == "unix" && PassesThrough(t) && t.opaq == "" && (t.rawPath == "" || t.rawPath == t.path)
    ensures Directed(t, without, req).Some?
    ensures var r, out := Without(req, without), Directed(t, without, req).value;
            && out.scheme == "http" && out.host == "socket"
            && out.path == Slashed(r.path) && out.opaq == Slashed(r.opaq)
            && out.rawPath == Slashed(if t.rawPath == "" then r.rawPath else Prefer(r.rawPath, r.path))
  {
    hide Rewritten, PassesThrough, Cancels, SocketPrefix, Without;
    var r := Without(req, without);
    PassesThroughCancels(t);
    var prefix := SocketPrefix(t).value;
    Cancelled(prefix, t.path, r.path);
    Cancelled(prefix, t.path, r.opaq);
    Cancelled(prefix, t.path, r.rawPath);
  }

  /** A socket path with a trailing slash swallows the slash of the request path. */
  lemma TrailingSlashSwallows(t: Target, req: Url, rest: string)
    requires t.scheme == "unix" && OnlyPath(t) && PlainPath(t) && HasSuffix(t.path, "/")
    requires req.path == "/" + rest
    ensures Directed(t, "", req).Some? && Directed(t, "", req).value.path == rest
  {
    hide PrintedRest, PlainPath, SocketPrefix, Rewritten;
    SocketPrefixIs(t);
    PrintsPathExactly(t);
    SlashSwallowed(t.path, rest);
  }

  // ---------------------------------------------------------------------- queries

  /** The parameters of a query, undecoded. */
  function Parameters(query: string): seq<string> {
    if query == "" then [] else Split(query, '&')
  }

  /** For any target, the merged parameters are the target's followed by the request's. */
  lemma QueriesConcatenate(t: Target, without: string, req: Url)
    requires Directed(t, without, req).Some?
    ensures Parameters(Directed(t, without, req).value.rawQuery) == Parameters(t.rawQuery) + Parameters(req.rawQuery)
  {
    hide Split, Rewritten, SocketPrefix;
    MergedParameters(t.rawQuery, req.rawQuery);
  }

  lemma MergedParameters(t: string, r: string)
    ensures Parameters(MergedQuery(t, r)) == Parameters(t) + Parameters(r)
  {
    hide Split;
    SplitAppend(t, r, '&');
    assert t + "&" + r == t + ['&'] + r;
    assert t == "" ==> t + r == r;
    assert r == "" ==> t + r == t;
  }
}
